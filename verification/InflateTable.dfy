/**
  inflate_table: from code lengths to a two-level decoding table.

  The table is filled in code order. `huff` is the code word of the current symbol,
  bit-reversed, which is why it does not change when the length grows; every stream
  whose position lies below the current code is already decoded correctly.
 */
module InflateTable {
  import opened Bits
  import opened Canonical
  import opened DecodeTable
  import opened TableFill

  // ----- what the call returns -----

  /** Largest length in use among 1..l, or 0. */
  function MaxLen(lens: seq<nat>, l: nat): (m: nat)
    ensures m <= l && (m > 0 ==> Count(lens, m) > 0)
    ensures forall i :: m < i <= l ==> Count(lens, i) == 0
  {
    if l == 0 || Count(lens, l) != 0 then l else MaxLen(lens, l - 1)
  }

  /** Smallest length in use from l on, stopping at max. */
  function MinLen(lens: seq<nat>, l: nat, max: nat): (m: nat)
    requires l <= max
    ensures l <= m <= max
    ensures forall i :: l <= i < m ==> Count(lens, i) == 0
    ensures m < max ==> Count(lens, m) > 0
    decreases max - l
  {
    if l == max || Count(lens, l) != 0 then l else MinLen(lens, l + 1, max)
  }

  /** Index bits of the root table: the request, forced within the lengths in use. */
  function Root(lens: seq<nat>, bits: nat): (root: nat)
    ensures 1 <= root <= MAXBITS
  {
    var max := MaxLen(lens, MAXBITS);
    if max == 0 then 1 else
      var min := MinLen(lens, 1, max);
      var r := if bits > max then max else bits;
      if r < min then min else r
  }

  /** The lengths are over-subscribed, or incomplete where that is not allowed. */
  predicate BadLengths(kind: Kind, lens: seq<nat>) {
    var max, kraft := MaxLen(lens, MAXBITS), KraftUpTo(lens, MAXBITS);
    kraft > Pow2(MAXBITS) || (max > 0 && kraft < Pow2(MAXBITS) && (kind == Codes || max != 1))
  }

  /** End of slot r, the positions whose first `root` bits are r. */
  function SlotEnd(root: nat, r: nat): nat
    requires root <= MAXBITS
  {
    Shl(r + 1, MAXBITS - root)
  }

  /** Smallest length from l on by which the codes reach position end. */
  function Reach(lens: seq<nat>, end: nat, l: nat): (m: nat)
    requires l <= MAXBITS
    ensures l <= m <= MAXBITS
    decreases MAXBITS - l
  {
    if l == MAXBITS || EndOf(lens, l) >= end then l else Reach(lens, end, l + 1)
  }

  /** Entries of the sub-table of slot r; none if the slot has no code longer than root. */
  function SubSize(lens: seq<nat>, root: nat, r: nat): nat
    requires root < MAXBITS
  {
    if EndOf(lens, root) >= SlotEnd(root, r) then 0
    else Pow2(Reach(lens, SlotEnd(root, r), root + 1) - root)
  }

  /** Entries of the root table and of the sub-tables of the first r slots. */
  function Space(lens: seq<nat>, root: nat, r: nat): (s: nat)
    requires root <= MAXBITS
    ensures s >= Pow2(root)
  {
    if r == 0 || root == MAXBITS then Pow2(root) else Space(lens, root, r - 1) + SubSize(lens, root, r - 1)
  }

  predicate TooBig(kind: Kind, used: nat) {
    (kind == Lens && used >= ENOUGH_LENS) || (kind == Dists && used >= ENOUGH_DISTS)
  }

  function TotalSpace(lens: seq<nat>, bits: nat): nat {
    var root := Root(lens, bits);
    if EndOf(lens, MAXBITS) < Pow2(MAXBITS) then 2 else Space(lens, root, Pow2(root))
  }

  /** The return code, as a function of the arguments. */
  function Result(kind: Kind, lens: seq<nat>, bits: nat): int {
    if BadLengths(kind, lens) then -1
    else if TooBig(kind, TotalSpace(lens, bits)) then 1
    else 0
  }

  // ----- backwards increment -----

  /** Add one to a len-bit number whose most significant bit is bit 0. */
  function BackIncrement(huff: nat, len: nat): nat {
    if len == 0 then 0
    else if huff >= Pow2(len - 1) then BackIncrement(huff - Pow2(len - 1), len - 1)
    else huff + Pow2(len - 1)
  }

  lemma {:induction false} BackIncrementRev(c: nat, len: nat)
    ensures BackIncrement(Rev(c, len), len) == Rev(c + 1, len)
  {
    if len == 0 {
    } else {
      BackIncrementRev(c / 2, len - 1);
      assert (c + 1) / 2 == if c % 2 == 1 then c / 2 + 1 else c / 2;
    }
  }

  lemma {:induction false} TopBit(x: nat, j: nat)
    ensures Lo(x, j + 1) == Lo(x, j) + (if Hi(x, j) % 2 == 1 then Pow2(j) else 0)
  {
    if j == 0 {
      assert Lo(x / 2, 0) == 0;
    } else {
      TopBit(x / 2, j - 1);
    }
  }

  /** The loop on incr, here 1 << j (or 0 when j is -1). */
  method IncrementBackwards(huff: nat, len: nat) returns (next: nat)
    requires len > 0 && huff < Pow2(len)
    ensures next == BackIncrement(huff, len)
  {
    var j: int := len - 1;
    LoSmall(huff, len);
    while j >= 0 && Hi(huff, j) % 2 == 1
      invariant -1 <= j < len
      invariant BackIncrement(huff, len) == BackIncrement(Lo(huff, j + 1), j + 1)
    {
      TopBit(huff, j);
      j := j - 1;
    }
    if j >= 0 {
      TopBit(huff, j);
      next := Lo(huff, j) + Pow2(j);
    } else {
      next := 0;
    }
  }

  // ----- counting, checking and sorting -----

  method CountLengths(lens: seq<nat>) returns (count: array<nat>)
    requires ValidLens(lens)
    ensures fresh(count) && count.Length == MAXBITS + 1
    ensures forall l {:trigger count[l]} :: 0 <= l <= MAXBITS ==> count[l] == Count(lens, l)
  {
    count := new nat[MAXBITS + 1](_ => 0);
    for s := 0 to |lens|
      invariant forall l {:trigger count[l]} :: 0 <= l <= MAXBITS ==> count[l] == Count(lens[..s], l)
    {
      assert lens[..s + 1][..s] == lens[..s];
      count[lens[s]] := count[lens[s]] + 1;
    }
    assert lens[..|lens|] == lens;
  }

  /** The loop on left: it is negative for good once a length is over-subscribed. */
  method CheckLengths(kind: Kind, lens: seq<nat>, count: array<nat>, max: nat) returns (bad: bool)
    requires count.Length == MAXBITS + 1 && max == MaxLen(lens, MAXBITS) > 0
    requires forall l {:trigger count[l]} :: 0 <= l <= MAXBITS ==> count[l] == Count(lens, l)
    ensures bad <==> BadLengths(kind, lens)
  {
    KraftIsUsed(lens, MAXBITS);
    var left: int := 1;
    for len := 1 to MAXBITS + 1
      invariant left == Pow2(len - 1) - Used(lens, len - 1) && left >= 0
    {
      left := 2 * left - count[len];
      if left < 0 {
        OverSubscribed(lens, len, MAXBITS);
        return true;
      }
    }
    return left > 0 && (kind == Codes || max != 1);
  }

  lemma {:induction false} OverSubscribed(lens: seq<nat>, l: nat, m: nat)
    requires l <= m && Used(lens, l) > Pow2(l)
    ensures Used(lens, m) > Pow2(m)
    decreases m
  {
    if l < m {
      OverSubscribed(lens, l, m - 1);
    }
  }

  /** Where each length starts in code order; the last offset is the number of symbols. */
  method Offsets(lens: seq<nat>, count: array<nat>) returns (offs: array<nat>)
    requires count.Length == MAXBITS + 1
    requires forall l {:trigger count[l]} :: 0 <= l <= MAXBITS ==> count[l] == Count(lens, l)
    ensures fresh(offs) && offs.Length == MAXBITS + 2
    ensures forall l {:trigger offs[l]} :: 1 <= l <= MAXBITS + 1 ==> offs[l] == Offs(lens, l)
  {
    offs := new nat[MAXBITS + 2];
    offs[1] := 0;
    for len := 1 to MAXBITS + 1
      invariant forall l {:trigger offs[l]} :: 1 <= l <= len ==> offs[l] == Offs(lens, l)
    {
      offs[len + 1] := offs[len] + count[len];
    }
  }

  /** The symbols below s are in place. */
  ghost predicate Placed(lens: seq<nat>, work: seq<nat>, s: nat) {
    forall a: nat :: a < s && IsSymbol(lens, a) ==> Slot(lens, a) < |work| && work[Slot(lens, a)] == a
  }

  lemma PlaceOne(lens: seq<nat>, work: seq<nat>, s: nat)
    requires Placed(lens, work, s) && IsSymbol(lens, s) && Slot(lens, s) < |work|
    ensures Placed(lens, work[Slot(lens, s) := s], s + 1)
  {
    forall a: nat | a < s && IsSymbol(lens, a)
      ensures Slot(lens, a) != Slot(lens, s)
    {
      SlotInjective(lens, a, s);
    }
  }

  lemma AllPlaced(lens: seq<nat>, work: seq<nat>)
    requires |work| == NumSymbols(lens) && Placed(lens, work, |lens|)
    ensures InCodeOrder(lens, work)
  {
    forall k | 0 <= k < |work|
      ensures IsSymbol(lens, work[k]) && Slot(lens, work[k]) == k
    {
      var a := SymbolOfSlot(lens, k, MAXBITS);
    }
  }

  /** Counting sort of the symbols by length. */
  method SortSymbols(lens: seq<nat>, count: array<nat>) returns (work: array<nat>)
    requires ValidLens(lens) && count.Length == MAXBITS + 1
    requires forall l {:trigger count[l]} :: 0 <= l <= MAXBITS ==> count[l] == Count(lens, l)
    ensures fresh(work) && InCodeOrder(lens, work[..])
  {
    var offs := Offsets(lens, count);
    work := new nat[offs[MAXBITS + 1]];
    for s := 0 to |lens|
      invariant forall l {:trigger offs[l]} :: 1 <= l <= MAXBITS ==> offs[l] == Offs(lens, l) + Count(lens[..s], l)
      invariant Placed(lens, work[..], s)
    {
      assert lens[..s + 1][..s] == lens[..s];
      if lens[s] != 0 {
        SlotBounds(lens, s);
        OffsMono(lens, lens[s] + 1, MAXBITS + 1);
        PlaceOne(lens, work[..], s);
        ghost var was := work[..];
        work[offs[lens[s]]] := s;
        assert work[..] == was[Slot(lens, s) := s];
        offs[lens[s]] := offs[lens[s]] + 1;
      }
    }
    AllPlaced(lens, work[..]);
  }

  // ----- filling the tables -----

  /** Operation and value of every symbol of an alphabet. */
  ghost function SymTable(kind: Kind): (syms: seq<Entry>)
    ensures |syms| == Alphabet(kind)
    ensures forall s {:trigger syms[s]} :: 0 <= s < |syms| ==> syms[s] == Entry(SymOp(kind, s), 0, SymVal(kind, s))
  {
    seq(Alphabet(kind), s requires 0 <= s < Alphabet(kind) => Entry(SymOp(kind, s), 0, SymVal(kind, s)))
  }

  /** Write e at every index of a table of curr bits whose low e.bits bits are idx. */
  method Replicate(table: array<Entry>, at: nat, idx: nat, curr: nat, e: Entry)
    requires e.bits <= curr && idx < Pow2(e.bits) && at + Pow2(curr) <= table.Length
    modifies table
    ensures Copied(old(table[..]), table[..], at, idx, curr, e)
  {
    var incr, fill := Pow2(e.bits), Pow2(curr);
    ghost var m := Pow2(curr - e.bits);
    Pow2Shl(curr - e.bits, e.bits);
    ShlOne(e.bits);
    while fill != 0
      invariant fill == Shl(m, e.bits) <= Pow2(curr)
      invariant CopiedFrom(old(table[..]), table[..], at, idx, curr, e, fill)
      decreases fill
    {
      ghost var was := table[..];
      m := m - 1;
      CopyGroup(old(table[..]), was, at, idx, curr, e, m);
      fill := fill - incr;
      table[at + idx + fill] := e;
      assert table[..] == was[at + idx + fill := e];
    }
  }

  /** One step of the look-ahead: does length l fill slot r? */
  lemma ReachStep(lens: seq<nat>, root: nat, r: nat, l: nat)
    requires root <= l <= MAXBITS
    ensures Used(lens, l) >= Shl(r + 1, l - root) ==> Reach(lens, SlotEnd(root, r), l) == l
    ensures Used(lens, l) < Shl(r + 1, l - root) && l < MAXBITS ==>
      Reach(lens, SlotEnd(root, r), l) == Reach(lens, SlotEnd(root, r), l + 1)
  {
    ShlShl(r + 1, l - root, MAXBITS - l);
    if Used(lens, l) >= Shl(r + 1, l - root) {
      ShlMono(Shl(r + 1, l - root), Used(lens, l), MAXBITS - l);
    } else {
      ShlMono(Used(lens, l), Shl(r + 1, l - root), MAXBITS - l);
    }
  }

  /** Codes of length l not yet covered when the look-ahead reaches it. */
  ghost function Covered(lens: seq<nat>, len: nat, code: nat, l: nat): nat {
    if l == len then code else First(lens, l)
  }

  lemma CoveredNext(lens: seq<nat>, len: nat, code: nat, l: nat)
    requires l >= len
    ensures Covered(lens, len, code, l + 1) == 2 * Used(lens, l)
  {
  }

  /** Look ahead in the counts for the length by which slot r, which starts at `code`, is full. */
  method SubTableBits(lens: seq<nat>, count: array<nat>, len: nat, root: nat, max: nat, ghost code: nat, ghost r: nat)
    returns (curr: nat)
    requires count.Length == MAXBITS + 1 && root < len <= max <= MAXBITS
    requires forall l {:trigger count[l]} ::
      len <= l <= MAXBITS ==> count[l] == Used(lens, l) - Covered(lens, len, code, l)
    requires code == Shl(r, len - root) && EndOf(lens, max) >= SlotEnd(root, r)
    ensures root + curr == Reach(lens, SlotEnd(root, r), len) <= max
  {
    hide Used, First, Count;
    curr := len - root;
    var left: int := Pow2(curr);
    ShlAdd(r, 1, curr);
    ShlOne(curr);
    ghost var goal := Reach(lens, SlotEnd(root, r), len);
    while curr + root < max
      invariant len <= curr + root <= max
      invariant left == Shl(r + 1, curr) - Covered(lens, len, code, curr + root)
      invariant Reach(lens, SlotEnd(root, r), curr + root) == goal
      decreases max - curr
    {
      left := left - count[curr + root];
      ReachStep(lens, root, r, curr + root);
      CoveredNext(lens, len, code, curr + root);
      if left <= 0 { break; }
      curr := curr + 1;
      left := left * 2;
    }
    if curr + root == max {
      assert goal == max;
    }
  }

  // ----- moving from code to code -----

  lemma ShlInjective(x: nat, y: nat, n: nat)
    requires Shl(x, n) == Shl(y, n)
    ensures x == y
  {
    if x < y {
      ShlMono(x, y, n);
    } else if y < x {
      ShlMono(y, x, n);
    }
  }

  lemma NextWord(c: nat, l: nat, c': nat, l': nat)
    requires l <= l' <= MAXBITS && Shl(c, MAXBITS - l) + Pow2(MAXBITS - l) == Shl(c', MAXBITS - l')
    ensures Rev(c + 1, l) == Rev(c', l')
  {
    hide Shl, Pow2, Rev;
    ShlAdd(c, 1, MAXBITS - l);
    ShlOne(MAXBITS - l);
    ShlShl(c + 1, l' - l, MAXBITS - l');
    ShlInjective(Shl(c + 1, l' - l), c', MAXBITS - l');
    RevShl(c + 1, l, l' - l);
  }

  /** The incremented code word is the next symbol's, also when the length grows. */
  lemma NextHuff(lens: seq<nat>, a: nat, b: nat)
    requires IsSymbol(lens, a) && IsSymbol(lens, b) && Slot(lens, b) == Slot(lens, a) + 1
    ensures Rev(CodeOf(lens, a) + 1, lens[a]) == Rev(CodeOf(lens, b), lens[b])
  {
    Adjacent(lens, a, b);
    NextWord(CodeOf(lens, a), lens[a], CodeOf(lens, b), lens[b]);
  }

  /** The root slot of a code longer than root. */
  function SlotOf(lens: seq<nat>, sym: nat, root: nat): nat
    requires IsSymbol(lens, sym) && root < lens[sym]
  {
    Hi(CodeOf(lens, sym), lens[sym] - root)
  }

  lemma SlotOfWord(c: nat, l: nat, root: nat)
    requires root < l <= MAXBITS && c < Pow2(l)
    ensures var r := Hi(c, l - root);
      r < Pow2(root) && Lo(Rev(c, l), root) == Rev(r, root)
      && Shl(r, MAXBITS - root) <= Shl(c, MAXBITS - l)
      && Shl(c, MAXBITS - l) + Pow2(MAXBITS - l) <= SlotEnd(root, r)
  {
    var r := Hi(c, l - root);
    HiBound(c, l - root, root);
    RevLow(c, l - root, root);
    SlotOfInterval(c, l, root, r);
  }

  lemma SlotOfInterval(c: nat, l: nat, root: nat, r: nat)
    requires root < l <= MAXBITS && Hi(c, l - root) == r
    ensures Shl(r, MAXBITS - root) <= Shl(c, MAXBITS - l)
    ensures Shl(c, MAXBITS - l) + Pow2(MAXBITS - l) <= SlotEnd(root, r)
  {
    var d, e := l - root, MAXBITS - l;
    HiInterval(c, r, d);
    ShlAdd(r, 1, d);
    ShlOne(d);
    ShlMono(Shl(r, d), c, e);
    ShlMono(c, Shl(r + 1, d), e);
    ShlShl(r, d, e);
    ShlShl(r + 1, d, e);
  }

  lemma SlotOfCode(lens: seq<nat>, sym: nat, root: nat)
    requires EndOf(lens, MAXBITS) <= Pow2(MAXBITS)
    requires IsSymbol(lens, sym) && root < lens[sym]
    ensures var r := SlotOf(lens, sym, root);
      r < Pow2(root)
      && Lo(Rev(CodeOf(lens, sym), lens[sym]), root) == Rev(r, root)
      && Shl(r, MAXBITS - root) <= Start(lens, sym) && End(lens, sym) <= SlotEnd(root, r)
  {
    hide CodeOf;
    hide Rev;
    hide Hi;
    hide Lo;
    hide Pow2;
    CodeBound(lens, sym);
    SlotOfWord(CodeOf(lens, sym), lens[sym], root);
  }

  /** A symbol that starts inside slot r is no longer than the slot's sub-table allows. */
  lemma FitsSubTable(lens: seq<nat>, sym: nat, root: nat, r: nat, l: nat)
    requires IsSymbol(lens, sym) && root <= MAXBITS && l <= MAXBITS
    requires Start(lens, sym) < SlotEnd(root, r) <= EndOf(lens, l)
    ensures lens[sym] <= l
  {
    if lens[sym] > l {
      StartBounds(lens, sym);
      EndOfMono(lens, l, lens[sym] - 1);
    }
  }

  lemma {:induction false} ReachReaches(lens: seq<nat>, end: nat, l: nat)
    requires l <= MAXBITS && EndOf(lens, MAXBITS) >= end
    ensures EndOf(lens, Reach(lens, end, l)) >= end
    decreases MAXBITS - l
  {
    if l < MAXBITS && EndOf(lens, l) < end {
      ReachReaches(lens, end, l + 1);
    }
  }

  /** Lengths at which the codes have not reached end can be skipped. */
  lemma {:induction false} ReachSkip(lens: seq<nat>, end: nat, l: nat, m: nat)
    requires l <= m <= MAXBITS && (l < m ==> EndOf(lens, m - 1) < end)
    ensures Reach(lens, end, l) == Reach(lens, end, m)
    decreases m - l
  {
    if l < m {
      EndOfMono(lens, l, m - 1);
      ReachSkip(lens, end, l + 1, m);
    }
  }

  /** A position that is a multiple of the slot size starts its slot. */
  lemma SlotUnique(u: nat, r: nat, root: nat)
    requires root <= MAXBITS && Shl(r, MAXBITS - root) <= Shl(u, MAXBITS - root) < SlotEnd(root, r)
    ensures u == r
  {
    if u < r {
      ShlMono(u, r, MAXBITS - root);
    } else if u > r {
      ShlMono(r + 1, u, MAXBITS - root);
    }
  }

  /** All codes of length at most root precede the first longer one. */
  lemma EndOfShort(lens: seq<nat>, a: nat, b: nat, root: nat)
    requires IsSymbol(lens, a) && IsSymbol(lens, b) && Slot(lens, b) == Slot(lens, a) + 1
    requires lens[a] <= root < lens[b]
    ensures Start(lens, b) == EndOf(lens, root)
  {
    Adjacent(lens, a, b);
    StartBounds(lens, a);
    StartBounds(lens, b);
    EndOfMono(lens, lens[a], root);
    EndOfMono(lens, root, lens[b] - 1);
    AdjacentLengths(lens, a, b);
    LastOfLength(lens, a);
  }

  /** The first code longer than root starts a slot, the first one with a sub-table. */
  lemma FirstLong(lens: seq<nat>, a: nat, b: nat, root: nat)
    requires EndOf(lens, MAXBITS) <= Pow2(MAXBITS)
    requires IsSymbol(lens, a) && IsSymbol(lens, b) && Slot(lens, b) == Slot(lens, a) + 1
    requires lens[a] <= root < lens[b]
    ensures Start(lens, b) == Shl(SlotOf(lens, b, root), MAXBITS - root) == EndOf(lens, root)
  {
    EndOfShort(lens, a, b, root);
    SlotOfCode(lens, b, root);
    SlotUnique(Used(lens, root), SlotOf(lens, b, root), root);
  }

  lemma NextSlotNumber(root: nat, ra: nat, rb: nat, sa: nat, sb: nat, eb: nat)
    requires root <= MAXBITS && ra != rb && sa < sb < eb
    requires Shl(ra, MAXBITS - root) <= sa && sb <= SlotEnd(root, ra)
    requires Shl(rb, MAXBITS - root) <= sb && eb <= SlotEnd(root, rb)
    ensures rb == ra + 1 && sb == Shl(rb, MAXBITS - root)
  {
    if rb < ra {
      ShlMono(rb + 1, ra, MAXBITS - root);
    } else if rb > ra + 1 {
      ShlMono(ra + 1, rb, MAXBITS - root);
    }
  }

  /** When the root slot changes, the new slot is the next one and the code starts it. */
  lemma NextSlot(lens: seq<nat>, a: nat, b: nat, root: nat)
    requires EndOf(lens, MAXBITS) <= Pow2(MAXBITS)
    requires IsSymbol(lens, a) && IsSymbol(lens, b) && Slot(lens, b) == Slot(lens, a) + 1
    requires root < lens[a] && root < lens[b] && SlotOf(lens, a, root) != SlotOf(lens, b, root)
    ensures SlotOf(lens, b, root) == SlotOf(lens, a, root) + 1
    ensures Start(lens, b) == Shl(SlotOf(lens, b, root), MAXBITS - root)
  {
    Adjacent(lens, a, b);
    SlotOfCode(lens, a, root);
    SlotOfCode(lens, b, root);
    NextSlotNumber(root, SlotOf(lens, a, root), SlotOf(lens, b, root), Start(lens, a), Start(lens, b), End(lens, b));
  }
}
