/** The main loop of inflate_table and the whole function. */
module BuildTable {
  import opened Bits
  import opened Canonical
  import opened DecodeTable
  import opened TableFill
  import opened InflateTable

  /**
    The table being filled: where it starts, its index bits, the code bits dropped, the root index it serves,
    entries used.
   */
  datatype Cursor = Cursor(next: nat, curr: nat, drop: nat, low: int, used: nat)

  /** The current table is the root table. */
  ghost predicate InRoot(b: nat, root: nat, links: set<nat>, c: Cursor) {
    links == {} && c == Cursor(b, root, 0, -1, Pow2(root))
  }

  /** The current table is the sub-table of slot r, large enough for every code of the slot. */
  ghost predicate InSub(t: seq<Entry>, b: nat, root: nat, links: set<nat>, r: nat, c: Cursor, lens: seq<nat>) {
    && c.drop == root && 0 < root < MAXBITS && r < Pow2(root) && c.low == Rev(r, root) && c.low in links
    && LinksTo(t, b, root, c.low, c.next, c.curr) && Linked(t, b, root, links - {c.low}, c.next)
    && c.next + Pow2(c.curr) == b + c.used && c.used == Space(lens, root, r + 1)
    && root + c.curr <= MAXBITS && EndOf(lens, root + c.curr) >= SlotEnd(root, r)
  }

  /** The state of the loop when symbol sym, k-th in code order, is about to be entered. */
  ghost predicate Ready(t: seq<Entry>, b: nat, root: nat, links: set<nat>, c: Cursor, lens: seq<nat>, sym: nat, k: nat,
      huff: nat) {
    && Current(lens, sym, k, huff) && b + c.used <= |t|
    && if c.drop == 0 then InRoot(b, root, links, c) && lens[sym] <= root
       else root < lens[sym] <= root + c.curr && InSub(t, b, root, links, SlotOf(lens, sym, root), c, lens)
  }

  /** The index written fits the current table. */
  lemma IndexFits(t: seq<Entry>, b: nat, root: nat, links: set<nat>, c: Cursor, lens: seq<nat>, sym: nat, k: nat,
      huff: nat)
    requires Ready(t, b, root, links, c, lens, sym, k, huff)
    ensures huff < Pow2(lens[sym]) && c.drop <= lens[sym] <= c.drop + c.curr
    ensures Hi(huff, c.drop) < Pow2(lens[sym] - c.drop) && c.next + Pow2(c.curr) == b + c.used
  {
    hide CodeOf, Space, EndOf, SlotOf, Hi, Linked;
    HiBound(huff, c.drop, lens[sym] - c.drop);
  }

  /** Entering the current code decodes its streams and keeps what was decoded. */
  lemma Entered(t: seq<Entry>, t': seq<Entry>, b: nat, root: nat, links: set<nat>, c: Cursor,
                syms: seq<Entry>, lens: seq<nat>, sym: nat, k: nat, huff: nat)
    requires |lens| <= |syms| && Ready(t, b, root, links, c, lens, sym, k, huff)
    requires Filled(t, b, root, links, syms, lens, k)
    requires c.drop <= lens[sym]
      && Copied(t, t', c.next, Hi(huff, c.drop), c.curr, syms[sym].(bits := lens[sym] - c.drop))
    ensures Filled(t', b, root, links, syms, lens, k + 1)
    ensures Ready(t', b, root, links, c, lens, sym, k, huff)
  {
    hide CodeOf, Space, EndOf, Lo, Hi, Rev, Filled, Slot, Pow2;
    if c.drop == 0 {
      EnteredShort(t, t', b, root, links, c, syms, lens, sym, k, huff);
    } else {
      SlotOfCode(lens, sym, root);
      FillLong(t, t', b, root, links, c.low, c.next, c.curr, syms, lens, sym, k, huff);
      KeepSub(t, t', b, root, links, SlotOf(lens, sym, root), c, lens, Hi(huff, c.drop),
        syms[sym].(bits := lens[sym] - c.drop));
    }
  }

  lemma EnteredShort(t: seq<Entry>, t': seq<Entry>, b: nat, root: nat, links: set<nat>, c: Cursor,
                     syms: seq<Entry>, lens: seq<nat>, sym: nat, k: nat, huff: nat)
    requires |lens| <= |syms| && Ready(t, b, root, links, c, lens, sym, k, huff) && c.drop == 0
    requires Filled(t, b, root, links, syms, lens, k)
    requires Copied(t, t', c.next, Hi(huff, 0), c.curr, syms[sym].(bits := lens[sym] - 0))
    ensures Filled(t', b, root, links, syms, lens, k + 1)
  {
    assert Hi(huff, 0) == huff;
    FillShort(t, t', b, root, syms, lens, sym, k, huff);
  }

  /** Writes into the current sub-table do not touch the links. */
  lemma KeepSub(t: seq<Entry>, t': seq<Entry>, b: nat, root: nat, links: set<nat>, r: nat, c: Cursor, lens: seq<nat>,
      idx: nat, e: Entry)
    requires InSub(t, b, root, links, r, c, lens)
    requires Copied(t, t', c.next, idx, c.curr, e)
    ensures InSub(t', b, root, links, r, c, lens)
  {
    hide Rev, Space, EndOf, Lo;
    CopyBelow(t, t', c.next, c.curr, idx, e, b + c.low);
    forall i: nat | i in links - {c.low}
      ensures GoodLink(t', b, root, i, c.next)
    {
      assert GoodLink(t, b, root, i, c.next);
      CopyBelow(t, t', c.next, c.curr, idx, e, b + i);
    }
  }

  /** The next code fits the current table unless it is longer than root and in another slot. */
  lemma SameTable(t: seq<Entry>, b: nat, root: nat, links: set<nat>, c: Cursor,
                  lens: seq<nat>, sym: nat, k: nat, huff: nat, sym': nat, huff': nat)
    requires Ready(t, b, root, links, c, lens, sym, k, huff)
    requires Current(lens, sym', k + 1, huff')
    requires lens[sym'] <= root || Lo(huff', root) == c.low
    ensures Ready(t, b, root, links, c, lens, sym', k + 1, huff')
  {
    hide CodeOf, Lo, Rev, Space, EndOf, Linked, LinksTo;
    Adjacent(lens, sym, sym');
    if c.drop != 0 {
      InSameSlot(lens, sym', root, SlotOf(lens, sym, root), c.curr);
    }
  }

  lemma InSameSlot(lens: seq<nat>, sym: nat, root: nat, r: nat, curr: nat)
    requires EndOf(lens, MAXBITS) <= Pow2(MAXBITS) && IsSymbol(lens, sym)
    requires root < lens[sym] && root + curr <= MAXBITS && r < Pow2(root)
    requires Lo(Rev(CodeOf(lens, sym), lens[sym]), root) == Rev(r, root)
    requires EndOf(lens, root + curr) >= SlotEnd(root, r)
    ensures SlotOf(lens, sym, root) == r && lens[sym] <= root + curr
  {
    hide CodeOf, Rev, Lo, EndOf;
    SlotOfCode(lens, sym, root);
    RevInjective(SlotOf(lens, sym, root), r, root);
    FitsSubTable(lens, sym, root, r, root + curr);
  }

  // ----- new sub-tables -----

  lemma {:induction false} SpaceShort(lens: seq<nat>, root: nat, r: nat)
    requires root <= MAXBITS && EndOf(lens, root) >= Shl(r, MAXBITS - root)
    ensures Space(lens, root, r) == Pow2(root)
  {
    if r > 0 && root < MAXBITS {
      ShlMono(r - 1, r, MAXBITS - root);
      SpaceShort(lens, root, r - 1);
    }
  }

  lemma {:induction false} SpaceMono(lens: seq<nat>, root: nat, r: nat, r': nat)
    requires root <= MAXBITS && r <= r'
    ensures Space(lens, root, r) <= Space(lens, root, r')
    decreases r'
  {
    if r < r' {
      SpaceMono(lens, root, r, r' - 1);
    }
  }

  /** A code that needs a new sub-table starts a slot, and the space used is that of the slots before. */
  lemma SlotStarts(t: seq<Entry>, b: nat, root: nat, links: set<nat>, c: Cursor,
                   lens: seq<nat>, sym: nat, k: nat, huff: nat, sym': nat, huff': nat)
    requires Ready(t, b, root, links, c, lens, sym, k, huff)
    requires Current(lens, sym', k + 1, huff')
    requires root < lens[sym'] && Lo(huff', root) != c.low
    ensures var r := SlotOf(lens, sym', root);
      && r < Pow2(root) && Lo(huff', root) == Rev(r, root)
      && Start(lens, sym') == Shl(r, MAXBITS - root) && c.used == Space(lens, root, r)
  {
    hide CodeOf, Lo, Rev, Linked, LinksTo, Slot;
    SlotOfCode(lens, sym', root);
    if c.drop == 0 {
      FirstLong(lens, sym, sym', root);
      SpaceShort(lens, root, SlotOf(lens, sym', root));
    } else {
      NextSlot(lens, sym, sym', root);
    }
  }

  /** The size found by the look-ahead is the slot's. */
  lemma SizeOfSlot(lens: seq<nat>, sym: nat, root: nat, r: nat, curr: nat)
    requires EndOf(lens, MAXBITS) == Pow2(MAXBITS)
    requires IsSymbol(lens, sym) && root < lens[sym] && r < Pow2(root) && Start(lens, sym) == Shl(r, MAXBITS - root)
    requires root + curr == Reach(lens, SlotEnd(root, r), lens[sym])
    ensures Space(lens, root, r + 1) == Space(lens, root, r) + Pow2(curr)
    ensures 0 < curr < 16 && EndOf(lens, root + curr) >= SlotEnd(root, r)
  {
    hide EndOf, Start, Reach, Space, Shl, Pow2;
    StartBounds(lens, sym);
    EndOfMono(lens, root, lens[sym] - 1);
    ShlMono(r, r + 1, MAXBITS - root);
    SlotEndBound(root, r);
    ReachReaches(lens, SlotEnd(root, r), lens[sym]);
    ReachSkip(lens, SlotEnd(root, r), root + 1, lens[sym]);
    SpaceStep(lens, root, r);
  }

  lemma SpaceStep(lens: seq<nat>, root: nat, r: nat)
    requires root < MAXBITS
    ensures Space(lens, root, r + 1) == Space(lens, root, r) + SubSize(lens, root, r)
  {
  }

  lemma SlotEndBound(root: nat, r: nat)
    requires root <= MAXBITS && r < Pow2(root)
    ensures SlotEnd(root, r) <= Pow2(MAXBITS)
  {
    hide Shl, Pow2;
    ShlMono(r + 1, Pow2(root), MAXBITS - root);
    Pow2Shl(root, MAXBITS - root);
  }

  /** The cursor on a new sub-table of curr bits, served by root index low. */
  function NextTable(c: Cursor, root: nat, curr: nat, low: nat): Cursor {
    Cursor(c.next + Pow2(c.curr), curr, root, low, c.used + Pow2(curr))
  }

  /** Starting a new sub-table for the next code. */
  lemma NewTable(t: seq<Entry>, b: nat, root: nat, links: set<nat>, c: Cursor,
                 syms: seq<Entry>, lens: seq<nat>, sym: nat, k: nat, huff: nat, sym': nat, huff': nat, curr: nat)
    requires |lens| <= |syms| && EndOf(lens, MAXBITS) == Pow2(MAXBITS) && 0 < root
    requires Ready(t, b, root, links, c, lens, sym, k, huff)
    requires Filled(t, b, root, links, syms, lens, k + 1)
    requires Current(lens, sym', k + 1, huff')
    requires root < lens[sym'] && Lo(huff', root) != c.low
    requires root + curr == Reach(lens, SlotEnd(root, SlotOf(lens, sym', root)), lens[sym'])
    requires c.next + Pow2(c.curr) == b + c.used && b + c.used + Pow2(curr) <= |t|
    ensures var low, c' := Lo(huff', root), NextTable(c, root, curr, Lo(huff', root));
      && b + low < |t| && 0 < curr
      && var t' := t[b + low := Entry(curr, root, c'.next - b)];
         && Ready(t', b, root, links + {low}, c', lens, sym', k + 1, huff')
         && Filled(t', b, root, links + {low}, syms, lens, k + 1)
  {
    hide CodeOf, Lo, Rev, Space, EndOf, Start, Reach, Filled, Linked, InSub, InRoot, Slot, Pow2, SlotEnd;
    var r, next := SlotOf(lens, sym', root), c.next + Pow2(c.curr);
    SlotStarts(t, b, root, links, c, lens, sym, k, huff, sym', huff');
    SizeOfSlot(lens, sym', root, r, curr);
    AllLinked(t, b, root, links, c, lens, sym, k, huff);
    LinkSlot(t, b, root, links, r, next, Entry(curr, root, next - b), syms, lens, sym', k + 1);
    LinkSub(t, b, root, links, r, NextTable(c, root, curr, Rev(r, root)), lens);
  }

  lemma LinkSub(t: seq<Entry>, b: nat, root: nat, links: set<nat>, r: nat, c: Cursor, lens: seq<nat>)
    requires 0 < root < MAXBITS && r < Pow2(root) && 0 < c.curr < 16 && root + c.curr <= MAXBITS
    requires c.drop == root && c.low == Rev(r, root)
    requires b + Pow2(root) <= c.next && c.next + Pow2(c.curr) == b + c.used <= |t| && Linked(t, b, root, links, c.next)
    requires c.used == Space(lens, root, r + 1) && EndOf(lens, root + c.curr) >= SlotEnd(root, r)
    ensures InSub(t[b + c.low := Entry(c.curr, root, c.next - b)], b, root, links + {c.low}, r, c, lens)
  {
    hide Space, EndOf, Lo, Pow2;
    var t' := t[b + c.low := Entry(c.curr, root, c.next - b)];
    forall i: nat | i in links + {c.low} - {c.low}
      ensures GoodLink(t', b, root, i, c.next)
    {
      assert i in links;
      assert GoodLink(t, b, root, i, c.next);
    }
  }

  lemma AllLinked(t: seq<Entry>, b: nat, root: nat, links: set<nat>, c: Cursor, lens: seq<nat>, sym: nat, k: nat,
      huff: nat)
    requires Ready(t, b, root, links, c, lens, sym, k, huff)
    ensures b + Pow2(root) <= c.next + Pow2(c.curr) && Linked(t, b, root, links, c.next + Pow2(c.curr))
  {
    hide Space, EndOf, Lo, Pow2, CodeOf, SlotOf, Slot;
    forall i: nat | i in links
      ensures GoodLink(t, b, root, i, c.next + Pow2(c.curr))
    {
      if i != c.low {
        assert i in links - {c.low};
        assert GoodLink(t, b, root, i, c.next);
      }
    }
  }

  // ----- the counts that remain -----

  /** What is left of the counts when the k-th symbol, of length len, is current. */
  ghost predicate Remaining(lens: seq<nat>, count: seq<nat>, len: nat, k: nat) {
    && |count| == MAXBITS + 1 && len <= MAXBITS
    && count[len] == Offs(lens, len + 1) - k
    && forall l {:trigger count[l]} :: len < l <= MAXBITS ==> count[l] == Count(lens, l)
  }

  lemma RemainingCovered(lens: seq<nat>, count: seq<nat>, sym: nat, l: nat)
    requires IsSymbol(lens, sym) && Remaining(lens, count, lens[sym], Slot(lens, sym)) && lens[sym] <= l <= MAXBITS
    ensures count[l] == Used(lens, l) - Covered(lens, lens[sym], CodeOf(lens, sym), l)
  {
  }

  /** The current symbol was the last one exactly when the longest length is used up. */
  lemma LastOne(lens: seq<nat>, order: seq<nat>, k: nat, len: nat)
    requires InCodeOrder(lens, order) && k < |order| && len == lens[order[k]]
    ensures Offs(lens, len + 1) == k + 1 ==> (len == MaxLen(lens, MAXBITS) <==> k + 1 == |order|)
    ensures Offs(lens, len + 1) != k + 1 ==> k + 1 < |order| && k + 1 < Offs(lens, len + 1)
    ensures len <= MaxLen(lens, MAXBITS)
  {
    hide Offs, Count, MaxLen;
    var max := MaxLen(lens, MAXBITS);
    SlotBounds(lens, order[k]);
    OffsMono(lens, len + 1, MAXBITS + 1);
    CountAt(lens, order[k]);
    if len < max {
      OffsMono(lens, len + 1, max);
      OffsMono(lens, max + 1, MAXBITS + 1);
      OffsStep(lens, max);
    } else {
      NoneAbove(lens, max, MAXBITS);
    }
  }

  lemma OffsStep(lens: seq<nat>, l: nat)
    requires l >= 1
    ensures Offs(lens, l + 1) == Offs(lens, l) + Count(lens, l)
  {
  }

  lemma CountAt(lens: seq<nat>, sym: nat)
    requires IsSymbol(lens, sym)
    ensures Count(lens, lens[sym]) > 0 && lens[sym] <= MaxLen(lens, MAXBITS)
  {
    SlotBounds(lens, sym);
    OffsStep(lens, lens[sym]);
  }

  lemma {:induction false} NoneAbove(lens: seq<nat>, max: nat, l: nat)
    requires max <= l && forall i :: max < i <= l ==> Count(lens, i) == 0
    ensures Offs(lens, max + 1) == Offs(lens, l + 1)
  {
    if max < l {
      NoneAbove(lens, max, l - 1);
    }
  }

  /** The length of the next symbol, and the counts that remain for it. */
  lemma NextCounts(lens: seq<nat>, order: seq<nat>, count: seq<nat>, k: nat, len: nat)
    requires InCodeOrder(lens, order) && k + 1 < |order| && len == lens[order[k]]
    requires Remaining(lens, count, len, k + 1)
    ensures count[len] != 0 ==> lens[order[k + 1]] == len
    ensures Remaining(lens, count, lens[order[k + 1]], k + 1)
  {
    var a, b := order[k], order[k + 1];
    SlotBounds(lens, b);
    Adjacent(lens, a, b);
    if lens[b] > len {
      OffsMono(lens, len + 1, lens[b]);
      OffsStep(lens, lens[b]);
    }
  }

  // ----- the loops -----

  /** Lengths that passed the check, with a root size forced within them. */
  ghost predicate GoodLengths(kind: Kind, lens: seq<nat>, root: nat) {
    var max := MaxLen(lens, MAXBITS);
    && |lens| <= Alphabet(kind) && ValidLens(lens) && 0 < root <= max
    && (EndOf(lens, MAXBITS) == Pow2(MAXBITS) || (EndOf(lens, MAXBITS) < Pow2(MAXBITS) && max == 1))
    && (kind == Codes ==> root == max)
  }

  /** Room for the entries a call may write: what the caller provides. */
  predicate HasRoom(kind: Kind, root: nat, room: int) {
    match kind
    case Codes => Pow2(root) <= room
    case Lens => ENOUGH_LENS <= room
    case Dists => ENOUGH_DISTS <= room
  }

  ghost predicate AllEntered(t: seq<Entry>, b: nat, root: nat, kind: Kind, lens: seq<nat>, sym: nat, links: set<nat>,
      c: Cursor, huff: nat)
    requires |lens| <= Alphabet(kind)
  {
    && IsSymbol(lens, sym) && Slot(lens, sym) + 1 == NumSymbols(lens)
    && Ready(t, b, root, links, c, lens, sym, Slot(lens, sym), Rev(CodeOf(lens, sym), lens[sym]))
    && Filled(t, b, root, links, SymTable(kind), lens, NumSymbols(lens))
    && huff == Rev(CodeOf(lens, sym) + 1, lens[sym])
  }

  /** Some prefix of the slots already takes too much space. */
  ghost predicate Overflows(kind: Kind, lens: seq<nat>, root: nat) {
    && EndOf(lens, MAXBITS) == Pow2(MAXBITS) && root <= MAXBITS
    && exists r: nat {:trigger Space(lens, root, r)} :: r <= Pow2(root) && TooBig(kind, Space(lens, root, r))
  }

  /** Create the table entries of one code and step to the next code word. */
  method EnterCode(kind: Kind, lens: seq<nat>, table: array<Entry>, b: nat, root: nat, c: Cursor, sym: nat,
      ghost k: nat, huff: nat, ghost links: set<nat>)
    returns (huff': nat)
    requires |lens| <= Alphabet(kind) && Ready(table[..], b, root, links, c, lens, sym, k, huff)
    requires Filled(table[..], b, root, links, SymTable(kind), lens, k)
    modifies table
    ensures Ready(table[..], b, root, links, c, lens, sym, k, huff)
    ensures Filled(table[..], b, root, links, SymTable(kind), lens, k + 1)
    ensures huff' == Rev(CodeOf(lens, sym) + 1, lens[sym])
    ensures forall j {:trigger table[j]} :: 0 <= j < b || b + c.used <= j < table.Length ==> table[j] == old(table[j])
  {
    hide CodeOf, Rev, Lo, Hi, Pow2, Space, EndOf, Slot, Filled, SlotOf, Linked;
    var len := lens[sym];
    IndexFits(table[..], b, root, links, c, lens, sym, k, huff);
    var here := Entry(SymOp(kind, sym), len - c.drop, SymVal(kind, sym));
    Replicate(table, c.next, Hi(huff, c.drop), c.curr, here);
    assert here == SymTable(kind)[sym].(bits := len - c.drop);
    Entered(old(table[..]), table[..], b, root, links, c, SymTable(kind), lens, sym, k, huff);
    BackIncrementRev(CodeOf(lens, sym), len);
    huff' := IncrementBackwards(huff, len);
    TableStart(old(table[..]), b, root, links, c, lens, sym, k, huff);
  }

  lemma TableStart(t: seq<Entry>, b: nat, root: nat, links: set<nat>, c: Cursor, lens: seq<nat>, sym: nat, k: nat,
      huff: nat)
    requires Ready(t, b, root, links, c, lens, sym, k, huff)
    ensures b <= c.next
  {
  }

  /** Start a sub-table for the code huff of sym, unless the space is used up. */
  method OpenSubTable(kind: Kind, lens: seq<nat>, count: array<nat>, table: array<Entry>, b: nat, root: nat, max: nat,
      c: Cursor, ghost sym0: nat, ghost k: nat, ghost huff0: nat, ghost sym: nat, huff: nat, len: nat,
      ghost links: set<nat>)
    returns (full: bool, c': Cursor, ghost links': set<nat>)
    requires GoodLengths(kind, lens, root) && max == MaxLen(lens, MAXBITS)
    requires Ready(table[..], b, root, links, c, lens, sym0, k, huff0)
      && Filled(table[..], b, root, links, SymTable(kind), lens, k + 1)
    requires Current(lens, sym, k + 1, huff) && len == lens[sym] && root < len <= max && Lo(huff, root) != c.low
    requires Remaining(lens, count[..], len, k + 1) && HasRoom(kind, root, table.Length - b)
    modifies table
    ensures full ==> Overflows(kind, lens, root) && c' == c
    ensures !full ==> Ready(table[..], b, root, links', c', lens, sym, k + 1, huff)
    ensures !full ==> Filled(table[..], b, root, links', SymTable(kind), lens, k + 1)
    ensures !full ==> !TooBig(kind, c'.used)
    ensures c.used <= c'.used
    ensures forall j {:trigger table[j]} :: 0 <= j < b || b + c'.used <= j < table.Length ==> table[j] == old(table[j])
  {
    hide CodeOf, Rev, Lo, Hi, Pow2, Space, EndOf, Slot, Offs, Count, MaxLen, Filled, SlotOf, Linked, InSub, InRoot,
      Overflows, Start, SymTable;
    hide SlotEnd, Reach;
    ghost var t0, r := table[..], SlotOf(lens, sym, root);
    SlotStarts(t0, b, root, links, c, lens, sym0, k, huff0, sym, huff);
    var curr := SubTableSize(kind, lens, count, root, max, sym, k + 1, len);
    IndexFits(t0, b, root, links, c, lens, sym0, k, huff0);
    SizeOfSlot(lens, sym, root, r, curr);
    if TooBig(kind, c.used + Pow2(curr)) {
      OverflowsAt(kind, lens, root, r + 1);
      return true, c, links;
    }
    NewTable(t0, b, root, links, c, SymTable(kind), lens, sym0, k, huff0, sym, huff, curr);
    var low := Lo(huff, root);
    full, c', links' := false, NextTable(c, root, curr, low), links + {low};
    table[b + low] := Entry(curr, root, c'.next - b);
    assert table[..] == t0[b + low := Entry(curr, root, c'.next - b)];
  }

  lemma OverflowsAt(kind: Kind, lens: seq<nat>, root: nat, r: nat)
    requires EndOf(lens, MAXBITS) == Pow2(MAXBITS) && root <= MAXBITS && r <= Pow2(root)
      && TooBig(kind, Space(lens, root, r))
    ensures Overflows(kind, lens, root)
  {
  }

  lemma StartOfSlot(code: nat, len: nat, root: nat, r: nat)
    requires root <= len <= MAXBITS && Shl(code, MAXBITS - len) == Shl(r, MAXBITS - root)
    ensures code == Shl(r, len - root)
  {
    hide Shl;
    ShlShl(r, len - root, MAXBITS - len);
    ShlInjective(code, Shl(r, len - root), MAXBITS - len);
  }

  lemma EndOfMax(lens: seq<nat>)
    ensures EndOf(lens, MaxLen(lens, MAXBITS)) == EndOf(lens, MAXBITS)
  {
    hide Offs, EndOf;
    var max := MaxLen(lens, MAXBITS);
    NoneAbove(lens, max, MAXBITS);
    OffsMono(lens, max + 1, MAXBITS + 1);
  }

  /** The index bits of the sub-table for the code of sym, which starts a slot. */
  method SubTableSize(kind: Kind, lens: seq<nat>, count: array<nat>, root: nat, max: nat, ghost sym: nat, ghost k: nat,
      len: nat)
    returns (curr: nat)
    requires GoodLengths(kind, lens, root) && max == MaxLen(lens, MAXBITS)
    requires IsSymbol(lens, sym) && Slot(lens, sym) == k && len == lens[sym] && root < len <= max
    requires SlotOf(lens, sym, root) < Pow2(root) && Start(lens, sym) == Shl(SlotOf(lens, sym, root), MAXBITS - root)
    requires Remaining(lens, count[..], len, k)
    ensures EndOf(lens, MAXBITS) == Pow2(MAXBITS) && kind != Codes
    ensures root + curr == Reach(lens, SlotEnd(root, SlotOf(lens, sym, root)), len)
  {
    hide Used, First, Count, Offs, EndOf, MaxLen, Hi, Reach, Shl, Pow2;
    ghost var r, code := SlotOf(lens, sym, root), CodeOf(lens, sym);
    forall l {:trigger count[l]} | len <= l <= MAXBITS
      ensures count[l] == Used(lens, l) - Covered(lens, len, code, l)
    {
      RemainingCovered(lens, count[..], sym, l);
    }
    StartOfSlot(code, len, root, r);
    EndOfMax(lens);
    SlotEndBound(root, r);
    curr := SubTableBits(lens, count, len, root, max, code, r);
  }

  /** Process all codes and make table entries. */
  method EnterCodes(kind: Kind, lens: seq<nat>, work: array<nat>, count: array<nat>, table: array<Entry>, b: nat,
      root: nat, max: nat)
    returns (full: bool, c: Cursor, huff: nat, len: nat, ghost links: set<nat>)
    requires GoodLengths(kind, lens, root) && max == MaxLen(lens, MAXBITS)
    requires InCodeOrder(lens, work[..]) && work.Length > 0 && lens[work[0]] <= root
    requires count != work && Remaining(lens, count[..], lens[work[0]], 0)
    requires b + Pow2(root) <= table.Length && HasRoom(kind, root, table.Length - b) && !TooBig(kind, Pow2(root))
    modifies table, count
    ensures full ==> Overflows(kind, lens, root)
    ensures !full ==> !TooBig(kind, c.used) && b + c.used <= table.Length
    ensures !full ==>
      len == lens[work[work.Length - 1]]
        && AllEntered(table[..], b, root, kind, lens, work[work.Length - 1], links, c, huff)
    ensures forall j {:trigger table[j]} :: 0 <= j < b || b + c.used <= j < table.Length ==> table[j] == old(table[j])
  {
    hide CodeOf, Rev, Lo, Hi, Pow2, Space, EndOf, Slot, Offs, Count, MaxLen, Filled, SlotOf, Linked, InSub, Overflows,
      Start, SymTable;
    ghost var order := work[..];
    ghost var n := |order|;
    full, links := false, {};
    huff := 0;
    len := lens[work[0]];
    c := Cursor(b, root, 0, -1, Pow2(root));
    var k := 0;
    FirstReady(table[..], b, root, kind, lens, order[0]);
    while true
      invariant 0 <= k < n && work[..] == order && len == lens[work[k]] && !full && !TooBig(kind, c.used)
      invariant Remaining(lens, count[..], len, k)
      invariant Ready(table[..], b, root, links, c, lens, work[k], k, huff)
      invariant Filled(table[..], b, root, links, SymTable(kind), lens, k)
      invariant forall j {:trigger table[j]} ::
        0 <= j < b || b + c.used <= j < table.Length ==> table[j] == old(table[j])
      decreases n - k
    {
      var sym := work[k];
      ghost var huff0 := huff;
      huff := EnterCode(kind, lens, table, b, root, c, sym, k, huff, links);
      LastOne(lens, order, k, len);
      count[len] := count[len] - 1;
      if count[len] == 0 && len == max { break; }
      NextCounts(lens, order, count[..], k, len);
      NextHuff(lens, sym, order[k + 1]);
      k := k + 1;
      if count[len] == 0 {
        len := lens[work[k]];
      }
      if len > root && Lo(huff, root) != c.low {
        LastOne(lens, order, k, len);
        full, c, links := OpenSubTable(kind, lens, count, table, b, root, max, c, sym, k - 1, huff0, work[k], huff, len,
          links);
        if full { return; }
      } else {
        SameTable(table[..], b, root, links, c, lens, sym, k - 1, huff0, work[k], huff);
      }
    }
  }

  /** Before the first code nothing is decoded and the root table is current. */
  lemma FirstReady(t: seq<Entry>, b: nat, root: nat, kind: Kind, lens: seq<nat>, sym: nat)
    requires GoodLengths(kind, lens, root) && IsSymbol(lens, sym) && Slot(lens, sym) == 0 && lens[sym] <= root
    requires b + Pow2(root) <= |t|
    ensures Ready(t, b, root, {}, Cursor(b, root, 0, -1, Pow2(root)), lens, sym, 0, 0)
    ensures Filled(t, b, root, {}, SymTable(kind), lens, 0)
  {
    hide CodeOf, Rev, Start, EndOf, Pow2, Slot, MaxLen;
    FirstSymbol(lens, sym);
    FirstHuff(lens, sym);
  }

  lemma FirstHuff(lens: seq<nat>, sym: nat)
    requires IsSymbol(lens, sym) && Start(lens, sym) == 0
    ensures CodeOf(lens, sym) == 0 && Rev(CodeOf(lens, sym), lens[sym]) == 0
  {
    ShlOne(MAXBITS - lens[sym]);
    ShlInjective(CodeOf(lens, sym), 0, MAXBITS - lens[sym]);
    RevZero(lens[sym]);
  }

  // ----- the finished table -----

  lemma DoneLookup(t: seq<Entry>, b: nat, root: nat, links: set<nat>, kind: Kind, lens: seq<nat>, sym: nat, h: nat)
    requires |lens| <= Alphabet(kind) && IsSymbol(lens, sym)
    requires Done(t, b, root, links, SymTable(kind), lens, sym, h)
    ensures InTable(t, b, root, h)
    ensures Lookup(t, b, root, h) == Entry(SymOp(kind, sym), lens[sym], SymVal(kind, sym))
    ensures var e := t[b + Lo(h, root)]; if lens[sym] <= root then !IsLink(e) else e.bits == root
  {
    hide Lo, Hi, SymVal;
  }

  lemma SlotBelow(lens: seq<nat>, sym: nat)
    requires IsSymbol(lens, sym)
    ensures Slot(lens, sym) < NumSymbols(lens)
  {
    hide Offs;
    SlotBounds(lens, sym);
    OffsMono(lens, lens[sym] + 1, MAXBITS + 1);
  }

  /** With every code entered, a complete code is decoded on every stream. */
  lemma CompleteDecodes(t: seq<Entry>, b: nat, root: nat, links: set<nat>, kind: Kind, lens: seq<nat>)
    requires |lens| <= Alphabet(kind) && EndOf(lens, MAXBITS) == Pow2(MAXBITS)
    requires Filled(t, b, root, links, SymTable(kind), lens, NumSymbols(lens))
    ensures Decodes(t, b, root, kind, lens)
  {
    hide EndOf, Pow2, NumSymbols, Slot, SymTable, Done, Lookup, SymOp, SymVal, Lo, Rev, CodeOf;
    forall h: nat
      ensures DecodesStream(t, b, root, kind, lens, h)
    {
      var sym := CompleteMatches(lens, h);
      SlotBelow(lens, sym);
      DoneLookup(t, b, root, links, kind, lens, sym, h);
    }
  }

  /** An incomplete code that passes the check has one code word, a single 0 bit. */
  lemma OneCode(lens: seq<nat>, sym: nat)
    requires IsSymbol(lens, sym) && MaxLen(lens, MAXBITS) == 1 && EndOf(lens, MAXBITS) < Pow2(MAXBITS)
    ensures lens[sym] == 1 && CodeOf(lens, sym) == 0 && Slot(lens, sym) == 0
    ensures Rev(CodeOf(lens, sym) + 1, lens[sym]) == 1 && Rev(CodeOf(lens, sym), lens[sym]) == 0
  {
    CountAt(lens, sym);
    EndOfMax(lens);
    OneCodeUsed(lens);
    CountMono(lens, sym, |lens|, 1);
    assert lens[..|lens|] == lens;
    assert First(lens, 1) == 0 && Offs(lens, 1) == 0;
    RevOne();
  }

  lemma OneCodeUsed(lens: seq<nat>)
    requires EndOf(lens, 1) < Pow2(MAXBITS)
    ensures Count(lens, 1) <= 1
  {
    assert Used(lens, 0) == 0;
    var u := Used(lens, 1);
    assert First(lens, 1) == 0;
    assert Pow2(1) == 2 * Pow2(0);
    Pow2Shl(1, 14);
    if u >= 2 {
      ShlMono(2, u, 14);
    }
  }

  lemma RevOne()
    ensures Rev(1, 1) == 1 && Rev(0, 1) == 0
  {
    assert Rev(0, 0) == 0 && Pow2(0) == 1;
  }

  lemma IncompleteDecodes(t: seq<Entry>, b: nat, kind: Kind, lens: seq<nat>, sym: nat)
    requires |lens| <= Alphabet(kind) && IsSymbol(lens, sym) && b + 1 < |t|
    requires MaxLen(lens, MAXBITS) == 1 && EndOf(lens, MAXBITS) < Pow2(MAXBITS)
    requires Filled(t, b, 1, {}, SymTable(kind), lens, NumSymbols(lens))
    ensures Decodes(t[b + 1 := Entry(64, 1, 0)], b, 1, kind, lens)
  {
    hide EndOf, NumSymbols, SymTable, SymOp, SymVal, MaxLen, CodeOf, Rev, Slot, Lookup;
    var t' := t[b + 1 := Entry(64, 1, 0)];
    OneCode(lens, sym);
    SlotBelow(lens, sym);
    forall h: nat
      ensures DecodesStream(t', b, 1, kind, lens, h)
    {
      LoOne(h);
      if Lo(h, 1) == 0 {
        assert Matches(lens, sym, h);
        HitOne(t, t', b, kind, lens, sym, h);
      } else {
        MissOne(t', b, h);
      }
      forall a: nat | Matches(lens, a, h)
        ensures a == sym && Lo(h, 1) == 0
      {
        OneCode(lens, a);
        SlotInjective(lens, a, sym);
      }
    }
  }

  lemma LoOne(h: nat)
    ensures Lo(h, 1) == h % 2
  {
    assert Lo(h / 2, 0) == 0;
  }

  lemma HitOne(t: seq<Entry>, t': seq<Entry>, b: nat, kind: Kind, lens: seq<nat>, sym: nat, h: nat)
    requires |lens| <= Alphabet(kind) && IsSymbol(lens, sym) && lens[sym] == 1 && b + 1 < |t| && Lo(h, 1) == 0
    requires t' == t[b + 1 := Entry(64, 1, 0)]
    requires Done(t, b, 1, {}, SymTable(kind), lens, sym, h)
    ensures InTable(t', b, 1, h) && Lookup(t', b, 1, h) == Entry(SymOp(kind, sym), 1, SymVal(kind, sym))
    ensures !IsLink(t'[b + Lo(h, 1)])
  {
    hide Lo, Hi, SymVal, SymOp;
    DoneLookup(t', b, 1, {}, kind, lens, sym, h);
  }

  lemma MissOne(t: seq<Entry>, b: nat, h: nat)
    requires b + Lo(h, 1) < |t| && t[b + Lo(h, 1)] == Entry(64, 1, 0)
    ensures InTable(t, b, 1, h) && Lookup(t, b, 1, h) == Entry(64, 1, 0)
  {
    hide Lo, Hi;
  }

  /** With no codes at all, both entries of a one-bit table are the invalid marker. */
  lemma EmptyDecodes(t: seq<Entry>, b: nat, kind: Kind, lens: seq<nat>)
    requires |lens| <= Alphabet(kind) && ValidLens(lens) && MaxLen(lens, MAXBITS) == 0
    requires b + 1 < |t| && t[b] == t[b + 1] == Entry(64, 1, 0)
    ensures Decodes(t, b, 1, kind, lens)
  {
    hide Matches, Lookup, Lo, SymOp, SymVal;
    forall h: nat
      ensures DecodesStream(t, b, 1, kind, lens, h)
    {
      LoOne(h);
      MissOne(t, b, h);
      NoMatch(lens, h);
    }
  }

  lemma NoMatch(lens: seq<nat>, h: nat)
    requires ValidLens(lens) && MaxLen(lens, MAXBITS) == 0
    ensures forall a: nat :: !Matches(lens, a, h)
  {
    hide MaxLen, Lo, Rev, CodeOf;
    forall a: nat
      ensures !Matches(lens, a, h)
    {
      if IsSymbol(lens, a) {
        CountAt(lens, a);
      }
    }
  }

  /** Fill in the rest of the table for incomplete codes. */
  method FillRest(table: array<Entry>, b: nat, root: nat, c: Cursor, huff: nat, len: nat, ghost complete: bool)
    requires complete ==> huff == 0
    requires !complete ==> huff == 1 && len == 1 && root == 1 && c.drop == 0 && c.next == b && b + 1 < table.Length
    modifies table
    ensures table[..] == if complete then old(table[..]) else old(table[..])[b + 1 := Entry(64, 1, 0)]
  {
    var left := huff;
    var drop: int, next: int, l: int := c.drop, c.next, len;
    var here := Entry(64, if len >= drop then len - drop else 0, 0);
    while left != 0
      invariant complete ==> left == 0 && table[..] == old(table[..])
      invariant !complete ==> drop == 0 && next == b && l == 1 && here == Entry(64, 1, 0)
      invariant !complete ==> left <= 1
      invariant !complete && left == 1 ==> table[..] == old(table[..])
      invariant !complete && left == 0 ==> table[..] == old(table[..])[b + 1 := Entry(64, 1, 0)]
      decreases left
    {
      if drop != 0 && Lo(left, root) != c.low {
        drop, l, next := 0, root, b;
        here := here.(bits := root);
      }
      assert Hi(left, 0) == left;
      table[next + Hi(left, drop)] := here;
      assert Pow2(1) == 2 * Pow2(0) && BackIncrement(0, 0) == 0;
      left := IncrementBackwards(left, l);
    }
  }

  /** The entries used are those of the root table and of all slots. */
  lemma UsedIsTotal(t: seq<Entry>, b: nat, root: nat, kind: Kind, lens: seq<nat>, sym: nat, links: set<nat>, c: Cursor,
      huff: nat)
    requires |lens| <= Alphabet(kind) && root <= MAXBITS && EndOf(lens, MAXBITS) == Pow2(MAXBITS)
    requires AllEntered(t, b, root, kind, lens, sym, links, c, huff)
    ensures c.used == Space(lens, root, Pow2(root))
  {
    hide CodeOf, Rev, Lo, EndOf, Filled, Slot, Start, End, Linked, LinksTo, Space, Pow2, Shl, NumSymbols;
    LastSymbol(lens, sym);
    Pow2Shl(root, MAXBITS - root);
    if c.drop == 0 {
      StartBounds(lens, sym);
      EndOfMono(lens, lens[sym], root);
      SpaceShort(lens, root, Pow2(root));
    } else {
      var r := SlotOf(lens, sym, root);
      SlotOfCode(lens, sym, root);
      if r + 1 < Pow2(root) {
        ShlMono(r + 1, Pow2(root), MAXBITS - root);
      }
    }
  }

  /** After the last code of a complete code the code word wraps around to zero. */
  lemma WrapsAround(lens: seq<nat>, sym: nat)
    requires IsSymbol(lens, sym) && Slot(lens, sym) + 1 == NumSymbols(lens) && EndOf(lens, MAXBITS) == Pow2(MAXBITS)
    ensures Rev(CodeOf(lens, sym) + 1, lens[sym]) == 0
  {
    hide CodeOf, Slot, NumSymbols, EndOf, Shl, Pow2;
    var l, d := lens[sym], MAXBITS - lens[sym];
    LastSymbol(lens, sym);
    ShlAdd(CodeOf(lens, sym), 1, d);
    ShlOne(d);
    Pow2Shl(l, d);
    ShlInjective(CodeOf(lens, sym) + 1, Pow2(l), d);
    RevShl(1, 0, l);
    ShlOne(l);
  }

  lemma {:induction false} ShortestFirst(lens: seq<nat>, sym: nat, l: nat)
    requires IsSymbol(lens, sym) && Slot(lens, sym) == 0 && 1 <= l <= lens[sym] <= MaxLen(lens, MAXBITS)
    ensures MinLen(lens, l, MaxLen(lens, MAXBITS)) == lens[sym]
    decreases lens[sym] - l
  {
    hide MaxLen, Count;
    CountAt(lens, sym);
    SlotBounds(lens, sym);
    if l < lens[sym] {
      OffsMono(lens, l + 1, lens[sym]);
      OffsStep(lens, l);
      ShortestFirst(lens, sym, l + 1);
    }
  }

  /** What the caller provides: space for the table, and, for code length codes, no sub-tables. */
  ghost predicate Provided(kind: Kind, lens: seq<nat>, bits: nat, room: int) {
    match kind
    case Codes => bits >= 1 && Pow2(bits) <= room && forall i :: 0 <= i < |lens| ==> lens[i] <= bits
    case Lens => ENOUGH_LENS <= room
    case Dists => ENOUGH_DISTS <= room
  }

  lemma {:induction false} MaxLenBound(lens: seq<nat>, bits: nat, l: nat)
    requires forall i :: 0 <= i < |lens| ==> lens[i] <= bits
    ensures l > bits ==> Count(lens, l) == 0
    decreases |lens|
  {
    if lens != [] {
      MaxLenBound(lens[..|lens| - 1], bits, l);
    }
  }

  /** The root size is within the lengths in use, and there is room for the root table. */
  lemma RootFacts(kind: Kind, lens: seq<nat>, bits: nat, room: int)
    requires ValidLens(lens) && Provided(kind, lens, bits, room) && MaxLen(lens, MAXBITS) > 0
    requires !TooBig(kind, Pow2(Root(lens, bits)))
    ensures var root, max := Root(lens, bits), MaxLen(lens, MAXBITS);
      && root <= max && (kind == Codes ==> root == max)
      && HasRoom(kind, root, room) && Pow2(root) <= room
  {
    hide Count, MaxLen, MinLen;
    var max := MaxLen(lens, MAXBITS);
    if kind == Codes {
      MaxLenBound(lens, bits, max);
      Pow2Mono(max, bits);
    }
  }

  method FindMax(lens: seq<nat>, count: array<nat>) returns (max: nat)
    requires count.Length == MAXBITS + 1
    requires forall l {:trigger count[l]} :: 0 <= l <= MAXBITS ==> count[l] == Count(lens, l)
    ensures max == MaxLen(lens, MAXBITS)
  {
    max := MAXBITS;
    while max >= 1 && count[max] == 0
      invariant max <= MAXBITS && MaxLen(lens, MAXBITS) == MaxLen(lens, max)
    {
      max := max - 1;
    }
  }

  method FindMin(lens: seq<nat>, count: array<nat>, max: nat) returns (min: nat)
    requires count.Length == MAXBITS + 1 && 1 <= max <= MAXBITS
    requires forall l {:trigger count[l]} :: 0 <= l <= MAXBITS ==> count[l] == Count(lens, l)
    ensures min == MinLen(lens, 1, max)
  {
    min := 1;
    while min < max && count[min] == 0
      invariant 1 <= min <= max && MinLen(lens, 1, max) == MinLen(lens, min, max)
    {
      min := min + 1;
    }
  }

  lemma EndIsKraft(lens: seq<nat>)
    ensures EndOf(lens, MAXBITS) == KraftUpTo(lens, MAXBITS)
  {
    hide Used, KraftUpTo;
    KraftIsUsed(lens, MAXBITS);
  }

  /** A prefix of the slots that is too big makes the whole table too big. */
  lemma FullResult(kind: Kind, lens: seq<nat>, bits: nat)
    requires !BadLengths(kind, lens) && MaxLen(lens, MAXBITS) > 0
    requires Overflows(kind, lens, Root(lens, bits)) || TooBig(kind, Pow2(Root(lens, bits)))
    ensures Result(kind, lens, bits) == 1
  {
    hide MaxLen, MinLen, KraftUpTo, EndOf, Space, Pow2, BadLengths;
    var root := Root(lens, bits);
    if EndOf(lens, MAXBITS) < Pow2(MAXBITS) {
      IncompleteRoot(kind, lens, bits);
      Pow2One();
    } else if TooBig(kind, Pow2(root)) {
    } else {
      var r: nat :| r <= Pow2(root) && TooBig(kind, Space(lens, root, r));
      SpaceMono(lens, root, r, Pow2(root));
    }
  }

  lemma Pow2One()
    ensures Pow2(1) == 2
  {
    assert Pow2(0) == 1;
  }

  /** The only incomplete codes let through have a single length, one. */
  lemma IncompleteRoot(kind: Kind, lens: seq<nat>, bits: nat)
    requires !BadLengths(kind, lens) && MaxLen(lens, MAXBITS) > 0 && EndOf(lens, MAXBITS) < Pow2(MAXBITS)
    ensures MaxLen(lens, MAXBITS) == 1 && Root(lens, bits) == 1
  {
    hide MaxLen, MinLen, KraftUpTo, EndOf, Pow2;
    EndIsKraft(lens);
  }

  lemma PassedCheck(kind: Kind, lens: seq<nat>, bits: nat)
    requires |lens| <= Alphabet(kind) && ValidLens(lens) && !BadLengths(kind, lens) && MaxLen(lens, MAXBITS) > 0
    requires var root, max := Root(lens, bits), MaxLen(lens, MAXBITS); root <= max && (kind == Codes ==> root == max)
    ensures GoodLengths(kind, lens, Root(lens, bits))
    ensures NumSymbols(lens) > 0
  {
    hide MinLen, KraftUpTo, EndOf, Pow2, Root, Count, Offs;
    EndIsKraft(lens);
    var max := MaxLen(lens, MAXBITS);
    OffsStep(lens, max);
    OffsMono(lens, max + 1, MAXBITS + 1);
  }

  /** inflate_table */
  method Build(kind: Kind, lens: seq<nat>, table: array<Entry>, b: nat, bits: nat)
    returns (ret: int, end: nat, root: nat)
    requires |lens| <= Alphabet(kind) && ValidLens(lens) && Provided(kind, lens, bits, table.Length - b)
    modifies table
    ensures ret == Result(kind, lens, bits)
    ensures ret == 0 ==> end == b + TotalSpace(lens, bits) <= table.Length
    ensures ret == 0 ==> root == Root(lens, bits) && Decodes(table[..end], b, root, kind, lens)
    ensures ret == 0 ==>
      forall j {:trigger table[j]} :: 0 <= j < b || end <= j < table.Length ==> table[j] == old(table[j])
  {
    hide Count, MaxLen, MinLen, KraftUpTo, EndOf, Pow2, Space, Decodes, Filled, Ready, Slot, Rev, CodeOf, Offs, Used,
      BadLengths;
    hide NumSymbols;
    end, root := b, 1;
    Pow2One();
    EndIsKraft(lens);
    var count := CountLengths(lens);
    var max := FindMax(lens, count);
    if max == 0 {
      EmptyResult(kind, lens, bits);
      if kind == Codes { Pow2Mono(1, bits); }
      table[b], table[b + 1] := Entry(64, 1, 0), Entry(64, 1, 0);
      EmptyDecodes(table[..b + 2], b, kind, lens);
      return 0, b + 2, 1;
    }
    var min := FindMin(lens, count, max);
    root := if bits > max then max else bits;
    if root < min { root := min; }
    var bad := CheckLengths(kind, lens, count, max);
    if bad { return -1, b, root; }
    ret, end := Fill(kind, lens, count, table, b, bits, root, max);
  }

  /** Sort the symbols and make the tables, once the lengths passed the check. */
  method Fill(kind: Kind, lens: seq<nat>, count: array<nat>, table: array<Entry>, b: nat, bits: nat, root: nat,
      max: nat)
    returns (ret: int, end: nat)
    requires |lens| <= Alphabet(kind) && ValidLens(lens) && Provided(kind, lens, bits, table.Length - b)
    requires !BadLengths(kind, lens) && max == MaxLen(lens, MAXBITS) > 0 && root == Root(lens, bits)
    requires count.Length == MAXBITS + 1
    requires forall l {:trigger count[l]} :: 0 <= l <= MAXBITS ==> count[l] == Count(lens, l)
    modifies table, count
    ensures ret == Result(kind, lens, bits)
    ensures ret == 0 ==> end == b + TotalSpace(lens, bits) <= table.Length && Decodes(table[..end], b, root, kind, lens)
    ensures ret == 0 ==>
      forall j {:trigger table[j]} :: 0 <= j < b || end <= j < table.Length ==> table[j] == old(table[j])
  {
    hide Count, MaxLen, MinLen, KraftUpTo, EndOf, Pow2, Space, Decodes, Filled, Ready, Slot, Rev, CodeOf, Offs, Used,
      BadLengths;
    hide NumSymbols, Result, TotalSpace;
    var work := SortSymbols(lens, count);
    if TooBig(kind, Pow2(root)) {
      FullResult(kind, lens, bits);
      return 1, b;
    }
    RootFacts(kind, lens, bits, table.Length - b);
    PassedCheck(kind, lens, bits);
    FirstRemaining(lens, count[..], work[0]);
    var full, c, huff, len, links := EnterCodes(kind, lens, work, count, table, b, root, max);
    if full {
      FullResult(kind, lens, bits);
      return 1, b;
    }
    ghost var sym, t := work[work.Length - 1], table[..];
    ghost var complete := EndOf(lens, MAXBITS) == Pow2(MAXBITS);
    Finished(t, b, root, kind, lens, bits, sym, links, c, huff);
    FillRest(table, b, root, c, huff, len, complete);
    assert table[..b + c.used] == if complete then t[..b + c.used] else t[..b + c.used][b + 1 := Entry(64, 1, 0)];
    return 0, b + c.used;
  }

  lemma EmptyResult(kind: Kind, lens: seq<nat>, bits: nat)
    requires MaxLen(lens, MAXBITS) == 0
    ensures Result(kind, lens, bits) == 0 && Root(lens, bits) == 1 && TotalSpace(lens, bits) == 2
  {
    hide MaxLen, EndOf, KraftUpTo, Pow2;
    EndIsKraft(lens);
    EndOfMax(lens);
    EndOfNone(lens);
  }

  lemma EndOfNone(lens: seq<nat>)
    ensures EndOf(lens, 0) == 0 < Pow2(MAXBITS)
  {
    ShlOne(MAXBITS);
  }

  lemma FirstRemaining(lens: seq<nat>, count: seq<nat>, sym: nat)
    requires |count| == MAXBITS + 1 && IsSymbol(lens, sym) && Slot(lens, sym) == 0
    requires forall l {:trigger count[l]} :: 0 <= l <= MAXBITS ==> count[l] == Count(lens, l)
    ensures Remaining(lens, count, lens[sym], 0)
    ensures 1 <= MaxLen(lens, MAXBITS) && lens[sym] == MinLen(lens, 1, MaxLen(lens, MAXBITS))
  {
    hide MaxLen, MinLen, Count;
    SlotBounds(lens, sym);
    OffsStep(lens, lens[sym]);
    CountAt(lens, sym);
    ShortestFirst(lens, sym, 1);
  }

  /** Once all codes are entered, filling the rest leaves a table that decodes the code. */
  lemma Finished(t: seq<Entry>, b: nat, root: nat, kind: Kind, lens: seq<nat>, bits: nat, sym: nat, links: set<nat>,
      c: Cursor, huff: nat)
    requires GoodLengths(kind, lens, root) && root == Root(lens, bits) && !BadLengths(kind, lens)
    requires AllEntered(t, b, root, kind, lens, sym, links, c, huff) && !TooBig(kind, c.used)
    ensures Result(kind, lens, bits) == 0 && b + c.used <= |t| && c.used == TotalSpace(lens, bits)
    ensures EndOf(lens, MAXBITS) == Pow2(MAXBITS) ==> huff == 0 && Decodes(t[..b + c.used], b, root, kind, lens)
    ensures EndOf(lens, MAXBITS) != Pow2(MAXBITS) ==>
      && huff == 1 && lens[sym] == 1 && root == 1 && c == Cursor(b, 1, 0, -1, 2) && b + 1 < |t|
      && Decodes(t[..b + c.used][b + 1 := Entry(64, 1, 0)], b, root, kind, lens)
  {
    hide MaxLen, MinLen, EndOf, Pow2, Space, Decodes, Filled, Slot, Rev, CodeOf, BadLengths, NumSymbols, InSub;
    Pow2One();
    FilledWithin(t, b, root, links, c, SymTable(kind), lens, sym, Slot(lens, sym), Rev(CodeOf(lens, sym), lens[sym]),
      NumSymbols(lens));
    if EndOf(lens, MAXBITS) == Pow2(MAXBITS) {
      WrapsAround(lens, sym);
      UsedIsTotal(t, b, root, kind, lens, sym, links, c, huff);
      CompleteDecodes(t[..b + c.used], b, root, links, kind, lens);
    } else {
      IncompleteRoot(kind, lens, bits);
      OneCode(lens, sym);
      IncompleteDecodes(t[..b + c.used], b, kind, lens, sym);
    }
  }

  /** Nothing outside the entries used takes part in decoding. */
  lemma FilledWithin(t: seq<Entry>, b: nat, root: nat, links: set<nat>, c: Cursor, syms: seq<Entry>, lens: seq<nat>,
      sym: nat, k: nat, huff: nat, n: nat)
    requires |lens| <= |syms| && Ready(t, b, root, links, c, lens, sym, k, huff)
      && Filled(t, b, root, links, syms, lens, n)
    ensures b + c.used <= |t| && Filled(t[..b + c.used], b, root, links, syms, lens, n)
  {
    hide Pow2, Lo, Hi, Rev, CodeOf, InSub, InRoot, EndOf, Slot;
    AllLinked(t, b, root, links, c, lens, sym, k, huff);
    IndexFits(t, b, root, links, c, lens, sym, k, huff);
    var t' := t[..b + c.used];
    forall sym': nat, h: nat | Matches(lens, sym', h) && Slot(lens, sym') < n
      ensures Done(t', b, root, links, syms, lens, sym', h)
    {
      assert Done(t, b, root, links, syms, lens, sym', h);
    }
  }

  /** A table keeps decoding when entries behind it are written. */
  lemma DecodesPrefix(t: seq<Entry>, t': seq<Entry>, b: nat, root: nat, kind: Kind, lens: seq<nat>)
    requires |lens| <= Alphabet(kind) && Decodes(t, b, root, kind, lens) && t <= t'
    ensures Decodes(t', b, root, kind, lens)
  {
    hide Lo, Hi, Matches, SymOp, SymVal;
    forall h: nat
      ensures DecodesStream(t', b, root, kind, lens, h)
    {
      assert DecodesStream(t, b, root, kind, lens, h);
    }
  }
}
