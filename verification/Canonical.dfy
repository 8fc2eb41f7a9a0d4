/**
  The canonical Huffman code of section 3.2.2 of RFC 1951, as a code on its own:
  which code word each symbol has, when a vector of lengths is over-subscribed or
  incomplete, and which symbol a stream of bits starts with.

  A stream is a natural whose bit 0 comes first. Its position is the number whose
  top bit is the first bit of the stream (15 bits are looked at); in positions, the
  symbols own consecutive intervals, which is what makes the code decodable.
 */
module Canonical {
  import opened Bits

  const MAXBITS: nat := 15

  ghost predicate ValidLens(lens: seq<nat>) {
    forall i :: 0 <= i < |lens| ==> lens[i] <= MAXBITS
  }

  /** Number of symbols with code length l. */
  function Count(lens: seq<nat>, l: nat): (r: nat)
    ensures r <= |lens|
  {
    if lens == [] then 0
    else Count(lens[..|lens| - 1], l) + (if lens[|lens| - 1] == l then 1 else 0)
  }

  /** First code of length l (step 2 of the RFC's algorithm). */
  function First(lens: seq<nat>, l: nat): nat
    decreases lens, l, 0
  {
    if l == 0 then 0 else 2 * Used(lens, l - 1)
  }

  /** First code of length l that no symbol of length at most l starts with. */
  function Used(lens: seq<nat>, l: nat): nat
    decreases lens, l, 1
  {
    if l == 0 then 0 else First(lens, l) + Count(lens, l)
  }

  /** The code of a symbol (step 3 of the RFC's algorithm). */
  function CodeOf(lens: seq<nat>, sym: nat): nat
    requires sym < |lens|
  {
    First(lens, lens[sym]) + Count(lens[..sym], lens[sym])
  }

  predicate IsSymbol(lens: seq<nat>, sym: nat) {
    sym < |lens| && 0 < lens[sym] <= MAXBITS
  }

  /** The stream h starts with the code word of sym, most significant bit first. */
  predicate Matches(lens: seq<nat>, sym: nat, h: nat) {
    IsSymbol(lens, sym) && Lo(h, lens[sym]) == Rev(CodeOf(lens, sym), lens[sym])
  }

  // ----- the Kraft sum -----

  function Weight(len: nat, l: nat): nat {
    if 1 <= len <= l then Pow2(l - len) else 0
  }

  /** Sum over the symbols of 2^(l - length), for lengths 1..l. */
  function KraftUpTo(lens: seq<nat>, l: nat): nat {
    if lens == [] then 0 else KraftUpTo(lens[..|lens| - 1], l) + Weight(lens[|lens| - 1], l)
  }

  lemma {:induction false} KraftStep(lens: seq<nat>, l: nat)
    ensures KraftUpTo(lens, l + 1) == 2 * KraftUpTo(lens, l) + Count(lens, l + 1)
  {
    if lens == [] {
    } else {
      KraftStep(lens[..|lens| - 1], l);
    }
  }

  lemma {:induction false} KraftIsUsed(lens: seq<nat>, l: nat)
    ensures Used(lens, l) == KraftUpTo(lens, l)
  {
    if l == 0 {
      KraftZero(lens);
    } else {
      KraftIsUsed(lens, l - 1);
      KraftStep(lens, l - 1);
    }
  }

  lemma {:induction false} KraftZero(lens: seq<nat>)
    ensures KraftUpTo(lens, 0) == 0
  {
    if lens == [] {
    } else {
      KraftZero(lens[..|lens| - 1]);
    }
  }

  // ----- positions -----

  /** Position at which the codes of length at most l end. */
  function EndOf(lens: seq<nat>, l: nat): nat
    requires l <= MAXBITS
  {
    Shl(Used(lens, l), MAXBITS - l)
  }

  /** Position at which the interval of a symbol starts. */
  function Start(lens: seq<nat>, sym: nat): nat
    requires IsSymbol(lens, sym)
  {
    Shl(CodeOf(lens, sym), MAXBITS - lens[sym])
  }

  function End(lens: seq<nat>, sym: nat): nat
    requires IsSymbol(lens, sym)
  {
    Start(lens, sym) + Pow2(MAXBITS - lens[sym])
  }

  lemma EndOfStep(lens: seq<nat>, l: nat)
    requires 0 < l <= MAXBITS
    ensures EndOf(lens, l) == EndOf(lens, l - 1) + Shl(Count(lens, l), MAXBITS - l)
    ensures EndOf(lens, l - 1) == Shl(First(lens, l), MAXBITS - l)
  {
    ShlShl(Used(lens, l - 1), 1, MAXBITS - l);
    assert Shl(Used(lens, l - 1), 1) == 2 * Shl(Used(lens, l - 1), 0);
    ShlAdd(First(lens, l), Count(lens, l), MAXBITS - l);
  }

  lemma {:induction false} EndOfMono(lens: seq<nat>, l: nat, m: nat)
    requires l <= m <= MAXBITS
    ensures EndOf(lens, l) <= EndOf(lens, m)
    decreases m
  {
    if l < m {
      EndOfMono(lens, l, m - 1);
      EndOfStep(lens, m);
    }
  }

  lemma {:induction false} CountMono(lens: seq<nat>, s: nat, t: nat, l: nat)
    requires s <= t <= |lens|
    ensures Count(lens[..s], l) <= Count(lens[..t], l)
    ensures s < t && lens[s] == l ==> Count(lens[..s], l) < Count(lens[..t], l)
    decreases t
  {
    if s < t {
      CountMono(lens, s, t - 1, l);
      assert lens[..t][..t - 1] == lens[..t - 1];
    }
  }

  /** A symbol's interval lies between the ends of the lengths below and at its own. */
  lemma StartBounds(lens: seq<nat>, sym: nat)
    requires IsSymbol(lens, sym)
    ensures EndOf(lens, lens[sym] - 1) <= Start(lens, sym)
    ensures End(lens, sym) <= EndOf(lens, lens[sym])
  {
    var l := lens[sym];
    EndOfStep(lens, l);
    ShlMono(First(lens, l), CodeOf(lens, sym), MAXBITS - l);
    CountMono(lens, sym, |lens|, l);
    assert lens[..|lens|] == lens;
    ShlMono(CodeOf(lens, sym), Used(lens, l), MAXBITS - l);
  }

  /** Two symbols in code order (length first, then symbol) have intervals in that order. */
  lemma Ordered(lens: seq<nat>, a: nat, b: nat)
    requires IsSymbol(lens, a) && IsSymbol(lens, b)
    requires lens[a] < lens[b] || (lens[a] == lens[b] && a < b)
    ensures End(lens, a) <= Start(lens, b)
  {
    StartBounds(lens, a);
    StartBounds(lens, b);
    if lens[a] < lens[b] {
      EndOfMono(lens, lens[a], lens[b] - 1);
    } else {
      CountMono(lens, a, b, lens[a]);
      ShlMono(CodeOf(lens, a), CodeOf(lens, b), MAXBITS - lens[a]);
    }
  }

  lemma CodeBound(lens: seq<nat>, sym: nat)
    requires IsSymbol(lens, sym) && EndOf(lens, MAXBITS) <= Pow2(MAXBITS)
    ensures CodeOf(lens, sym) < Pow2(lens[sym])
  {
    var l, c := lens[sym], CodeOf(lens, sym);
    StartBounds(lens, sym);
    EndOfMono(lens, l, MAXBITS);
    if c >= Pow2(l) {
      ShlMono(Pow2(l), c, MAXBITS - l);
      Pow2Shl(l, MAXBITS - l);
    }
  }

  /** Matching a code word is lying in the symbol's interval. */
  lemma MatchIsInterval(lens: seq<nat>, sym: nat, h: nat)
    requires IsSymbol(lens, sym)
    requires EndOf(lens, MAXBITS) <= Pow2(MAXBITS)
    ensures Matches(lens, sym, h) <==> Start(lens, sym) <= Rev(h, MAXBITS) < End(lens, sym)
  {
    var l, c := lens[sym], CodeOf(lens, sym);
    CodeBound(lens, sym);
    RevLow(h, l, MAXBITS - l);
    HiInterval(Rev(h, MAXBITS), c, MAXBITS - l);
    LoIsRev(h, c, l);
  }

  lemma LoIsRev(h: nat, c: nat, l: nat)
    requires c < Pow2(l)
    ensures Rev(h, l) == c <==> Lo(h, l) == Rev(c, l)
  {
    RevRev(h, l);
    RevRev(c, l);
    LoSmall(c, l);
    RevLo(h, l, l);
  }

  /** A code that is not over-subscribed is prefix-free: no stream starts with two of its words. */
  lemma MatchUnique(lens: seq<nat>, a: nat, b: nat, h: nat)
    requires EndOf(lens, MAXBITS) <= Pow2(MAXBITS)
    requires Matches(lens, a, h) && Matches(lens, b, h)
    ensures a == b
  {
    MatchIsInterval(lens, a, h);
    MatchIsInterval(lens, b, h);
    if a != b {
      if lens[a] < lens[b] || (lens[a] == lens[b] && a < b) {
        Ordered(lens, a, b);
      } else {
        Ordered(lens, b, a);
      }
    }
  }

  // ----- code order -----

  /** Index, in code order, of the first symbol of length l. */
  function Offs(lens: seq<nat>, l: nat): nat {
    if l <= 1 then 0 else Offs(lens, l - 1) + Count(lens, l - 1)
  }

  /** Index of a symbol in code order. */
  function Slot(lens: seq<nat>, sym: nat): nat
    requires sym < |lens|
  {
    Offs(lens, lens[sym]) + Count(lens[..sym], lens[sym])
  }

  function NumSymbols(lens: seq<nat>): nat {
    Offs(lens, MAXBITS + 1)
  }

  /** order lists exactly the symbols of the code, in code order. */
  ghost predicate InCodeOrder(lens: seq<nat>, order: seq<nat>) {
    && |order| == NumSymbols(lens)
    && (forall k :: 0 <= k < |order| ==> IsSymbol(lens, order[k]) && Slot(lens, order[k]) == k)
    && (forall sym: nat :: IsSymbol(lens, sym) ==> Slot(lens, sym) < |order| && order[Slot(lens, sym)] == sym)
  }

  lemma {:induction false} OffsMono(lens: seq<nat>, l: nat, m: nat)
    requires 1 <= l <= m <= MAXBITS + 1
    ensures Offs(lens, l) <= Offs(lens, m)
    ensures Offs(lens, l) == Offs(lens, m) ==> EndOf(lens, l - 1) == EndOf(lens, m - 1)
    decreases m
  {
    if l < m {
      OffsMono(lens, l, m - 1);
      EndOfStep(lens, m - 1);
      ShlOne(MAXBITS + 1 - m);
    }
  }

  lemma SlotBounds(lens: seq<nat>, sym: nat)
    requires IsSymbol(lens, sym)
    ensures Offs(lens, lens[sym]) <= Slot(lens, sym) < Offs(lens, lens[sym] + 1)
  {
    CountMono(lens, sym, |lens|, lens[sym]);
    assert lens[..|lens|] == lens;
  }

  lemma SlotInjective(lens: seq<nat>, a: nat, b: nat)
    requires IsSymbol(lens, a) && IsSymbol(lens, b)
    ensures (lens[a] < lens[b] || (lens[a] == lens[b] && a < b)) ==> Slot(lens, a) < Slot(lens, b)
    ensures Slot(lens, a) == Slot(lens, b) ==> a == b
  {
    SlotBounds(lens, a);
    SlotBounds(lens, b);
    if lens[a] < lens[b] {
      OffsMono(lens, lens[a] + 1, lens[b]);
    } else if lens[b] < lens[a] {
      OffsMono(lens, lens[b] + 1, lens[a]);
    } else if a < b {
      CountMono(lens, a, b, lens[a]);
    } else {
      CountMono(lens, b, a, lens[a]);
    }
  }

  /** Every index below NumSymbols is the slot of a symbol. */
  lemma {:induction false} SymbolOfSlot(lens: seq<nat>, k: nat, l: nat) returns (sym: nat)
    requires 1 <= l <= MAXBITS && k < Offs(lens, l + 1)
    ensures IsSymbol(lens, sym) && Slot(lens, sym) == k
  {
    if k < Offs(lens, l) {
      sym := SymbolOfSlot(lens, k, l - 1);
    } else {
      assert lens[..|lens|] == lens;
      sym := SymbolOfRank(lens, l, k - Offs(lens, l), |lens|);
    }
  }

  lemma {:induction false} SymbolOfRank(lens: seq<nat>, l: nat, r: nat, n: nat) returns (sym: nat)
    requires n <= |lens| && r < Count(lens[..n], l)
    ensures sym < n && lens[sym] == l && Count(lens[..sym], l) == r
    decreases n
  {
    assert lens[..n][..n - 1] == lens[..n - 1];
    if r < Count(lens[..n - 1], l) {
      sym := SymbolOfRank(lens, l, r, n - 1);
    } else {
      sym := n - 1;
    }
  }

  /** In code order, each interval starts where the one before it ends. */
  lemma Adjacent(lens: seq<nat>, a: nat, b: nat)
    requires IsSymbol(lens, a) && IsSymbol(lens, b) && Slot(lens, b) == Slot(lens, a) + 1
    ensures End(lens, a) == Start(lens, b) && lens[a] <= lens[b]
    ensures lens[a] < lens[b] ==> Slot(lens, b) == Offs(lens, lens[a] + 1)
  {
    var la, lb := lens[a], lens[b];
    SlotBounds(lens, a);
    SlotBounds(lens, b);
    if la > lb {
      OffsMono(lens, lb + 1, la);
    } else if la == lb {
      ShlAdd(CodeOf(lens, a), 1, MAXBITS - la);
      ShlOne(MAXBITS - la);
    } else {
      AdjacentLengths(lens, a, b);
    }
  }

  lemma AdjacentLengths(lens: seq<nat>, a: nat, b: nat)
    requires IsSymbol(lens, a) && IsSymbol(lens, b) && Slot(lens, b) == Slot(lens, a) + 1
    requires lens[a] < lens[b]
    ensures End(lens, a) == Start(lens, b) && Slot(lens, b) == Offs(lens, lens[a] + 1)
  {
    SlotBounds(lens, a);
    SlotBounds(lens, b);
    OffsMono(lens, lens[a] + 1, lens[b]);
    LastOfLength(lens, a);
    EndOfStep(lens, lens[b]);
  }

  lemma LastOfLength(lens: seq<nat>, a: nat)
    requires IsSymbol(lens, a) && Slot(lens, a) + 1 == Offs(lens, lens[a] + 1)
    ensures End(lens, a) == EndOf(lens, lens[a])
  {
    ShlAdd(CodeOf(lens, a), 1, MAXBITS - lens[a]);
    ShlOne(MAXBITS - lens[a]);
  }

  lemma FirstSymbol(lens: seq<nat>, a: nat)
    requires IsSymbol(lens, a) && Slot(lens, a) == 0
    ensures Start(lens, a) == 0
  {
    OffsMono(lens, 1, lens[a]);
    EndOfStep(lens, lens[a]);
    assert EndOf(lens, 0) == 0 by { ShlOne(MAXBITS); }
  }

  lemma LastSymbol(lens: seq<nat>, a: nat)
    requires IsSymbol(lens, a) && Slot(lens, a) + 1 == NumSymbols(lens)
    ensures End(lens, a) == EndOf(lens, MAXBITS)
  {
    SlotBounds(lens, a);
    OffsMono(lens, lens[a] + 1, MAXBITS + 1);
    LastOfLength(lens, a);
  }

  lemma NoSymbols(lens: seq<nat>)
    ensures NumSymbols(lens) == 0 ==> EndOf(lens, MAXBITS) == 0
  {
    OffsMono(lens, 1, MAXBITS + 1);
    ShlOne(MAXBITS);
  }

  /** Every position below the end of the code lies in the interval of a symbol. */
  lemma {:induction false} SymbolAt(lens: seq<nat>, x: nat, k: nat) returns (sym: nat)
    requires k < NumSymbols(lens)
    requires forall a :: IsSymbol(lens, a) && Slot(lens, a) == k ==> x < End(lens, a)
    ensures IsSymbol(lens, sym) && Start(lens, sym) <= x < End(lens, sym)
  {
    sym := SymbolOfSlot(lens, k, MAXBITS);
    if x < Start(lens, sym) {
      if k == 0 {
        FirstSymbol(lens, sym);
      } else {
        forall a | IsSymbol(lens, a) && Slot(lens, a) == k - 1
          ensures x < End(lens, a)
        {
          Adjacent(lens, a, sym);
        }
        sym := SymbolAt(lens, x, k - 1);
      }
    }
  }

  lemma SymbolBelowEnd(lens: seq<nat>, x: nat) returns (sym: nat)
    requires x < EndOf(lens, MAXBITS)
    ensures IsSymbol(lens, sym) && Start(lens, sym) <= x < End(lens, sym)
  {
    var n := NumSymbols(lens);
    NoSymbols(lens);
    forall a | IsSymbol(lens, a) && Slot(lens, a) == n - 1
      ensures x < End(lens, a)
    {
      LastSymbol(lens, a);
    }
    sym := SymbolAt(lens, x, n - 1);
  }

  /** A complete code decodes every stream: exactly one of its words is a prefix. */
  lemma CompleteMatches(lens: seq<nat>, h: nat) returns (sym: nat)
    requires EndOf(lens, MAXBITS) == Pow2(MAXBITS)
    ensures Matches(lens, sym, h)
    ensures forall b: nat :: Matches(lens, b, h) ==> b == sym
  {
    sym := SymbolBelowEnd(lens, Rev(h, MAXBITS));
    MatchIsInterval(lens, sym, h);
    forall b | Matches(lens, b, h)
      ensures b == sym
    {
      MatchUnique(lens, b, sym, h);
    }
  }
}
