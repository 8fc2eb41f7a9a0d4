/** Cards and card sets of the game client: a set is a 64-bit word with one bit per card. */
module Cards {
  import opened Bits

  /** Cards are numbered by strength, four suits each, from the threes (0 to 3) to the twos; the joker is last. */
  const CARDS: nat := 53
  const JOKER: nat := 52

  /** getNum(): the number on the card, 0 for the joker. */
  function Num(c: nat): nat
    requires c < CARDS
  {
    if c == JOKER then 0 else if c < 44 then 3 + c / 4 else c / 4 - 10
  }

  /** Place in the order of strength, the suits aside. */
  function Rank(c: nat): nat {
    c / 4
  }

  /** The threes are the weakest, after the kings come the ones and the twos. */
  lemma NumOrder(c: nat)
    requires c < JOKER
    ensures 1 <= Num(c) <= 13 && Rank(c) == (Num(c) + 10) % 13
  {
  }

  lemma SameNum(a: nat, b: nat)
    requires a < CARDS && b < CARDS
    ensures Num(a) == Num(b) <==> Rank(a) == Rank(b)
  {
  }

  // ----- sets as words -----

  predicate Bit(b: nat, i: nat) {
    Hi(b, i) % 2 == 1
  }

  /** A card set as the 53 low bits of a word. */
  predicate IsSet(b: nat) {
    b < Pow2(53)
  }

  /** The cards in a set. */
  function Ids(b: nat): set<nat> {
    set i: nat | i < CARDS && Bit(b, i) :: i
  }

  /** bits | (1 << i) */
  function Add(b: nat, i: nat): nat {
    if i == 0 then (if b % 2 == 1 then b else b + 1) else b % 2 + 2 * Add(b / 2, i - 1)
  }

  /** bits & ~(1 << i) */
  function Remove(b: nat, i: nat): nat {
    if i == 0 then (if b % 2 == 1 then b - 1 else b) else b % 2 + 2 * Remove(b / 2, i - 1)
  }

  lemma {:induction false} AddBit(b: nat, i: nat, j: nat)
    ensures Bit(Add(b, i), j) <==> Bit(b, j) || j == i
  {
    if i > 0 && j > 0 { AddBit(b / 2, i - 1, j - 1); }
  }

  lemma {:induction false} RemoveBit(b: nat, i: nat, j: nat)
    ensures Bit(Remove(b, i), j) <==> Bit(b, j) && j != i
  {
    if i > 0 && j > 0 { RemoveBit(b / 2, i - 1, j - 1); }
  }

  lemma {:induction false} AddBound(b: nat, i: nat, n: nat)
    requires b < Pow2(n) && i < n
    ensures Add(b, i) < Pow2(n)
  {
    assert Pow2(n) == 2 * Pow2(n - 1);
    if i > 0 { AddBound(b / 2, i - 1, n - 1); }
  }

  lemma {:induction false} RemoveBound(b: nat, i: nat)
    ensures Remove(b, i) <= b
  {
    if i > 0 { RemoveBound(b / 2, i - 1); }
  }

  /** operator+= of a card */
  lemma AddIds(b: nat, i: nat)
    requires IsSet(b) && i < CARDS
    ensures IsSet(Add(b, i)) && Ids(Add(b, i)) == Ids(b) + {i}
  {
    hide Add, Bit, Pow2;
    AddBound(b, i, 53);
    forall j: nat
      ensures j in Ids(Add(b, i)) <==> j in Ids(b) + {i}
    {
      AddBit(b, i, j);
    }
  }

  /** operator-= of a card */
  lemma RemoveIds(b: nat, i: nat)
    requires IsSet(b)
    ensures IsSet(Remove(b, i)) && Ids(Remove(b, i)) == Ids(b) - {i}
  {
    hide Remove, Bit, Pow2;
    RemoveBound(b, i);
    forall j: nat
      ensures j in Ids(Remove(b, i)) <==> j in Ids(b) - {i}
    {
      RemoveBit(b, i, j);
    }
  }

  lemma {:induction false} SameBits(a: nat, b: nat, n: nat)
    requires a < Pow2(n) && b < Pow2(n) && forall i: nat :: i < n ==> (Bit(a, i) <==> Bit(b, i))
    ensures a == b
  {
    if n > 0 {
      forall i: nat | i < n - 1
        ensures Bit(a / 2, i) <==> Bit(b / 2, i)
      {
        assert Bit(a, i + 1) <==> Bit(b, i + 1);
      }
      assert Bit(a, 0) <==> Bit(b, 0);
      SameBits(a / 2, b / 2, n - 1);
    }
  }

  /** A set has one word only. */
  lemma SameIds(a: nat, b: nat)
    requires IsSet(a) && IsSet(b) && Ids(a) == Ids(b)
    ensures a == b
  {
    hide Bit, Pow2;
    forall i: nat | i < 53
      ensures Bit(a, i) <==> Bit(b, i)
    {
      assert i in Ids(a) <==> i in Ids(b);
    }
    SameBits(a, b, 53);
  }

  lemma {:induction false} NoBits(i: nat)
    ensures !Bit(0, i)
  {
    if i > 0 { NoBits(i - 1); }
  }

  lemma EmptyIds(b: nat)
    requires IsSet(b)
    ensures b == 0 <==> Ids(b) == {}
  {
    hide Bit, Pow2;
    forall i: nat
      ensures !Bit(0, i)
    {
      NoBits(i);
    }
    if Ids(b) == {} { SameIds(b, 0); }
  }

  // ----- the loops over the bits -----

  /** Cards below n, in order. */
  function Below(b: nat, n: nat): (v: seq<nat>) {
    if n == 0 then [] else Below(b, n - 1) + if Bit(b, n - 1) then [n - 1] else []
  }

  /** The cards of a set, weakest first. */
  function Sequence(b: nat): seq<nat> {
    Below(b, CARDS)
  }

  lemma {:induction false} BelowFacts(b: nat, n: nat)
    ensures forall k {:trigger Below(b, n)[k]} ::
      0 <= k < |Below(b, n)| ==> Below(b, n)[k] < n && Bit(b, Below(b, n)[k])
    ensures forall j, k {:trigger Below(b, n)[j], Below(b, n)[k]} ::
      0 <= j < k < |Below(b, n)| ==> Below(b, n)[j] < Below(b, n)[k]
    ensures forall i: nat :: i < n && Bit(b, i) ==> i in Below(b, n)
  {
    hide Bit;
    if n > 0 { BelowFacts(b, n - 1); }
  }

  lemma {:induction false} BelowSize(b: nat, n: nat)
    ensures |set i: nat | i < n && Bit(b, i) :: i| == |Below(b, n)|
  {
    hide Bit;
    var s := set i: nat | i < n && Bit(b, i) :: i;
    if n == 0 {
      assert s == {};
    } else {
      BelowSize(b, n - 1);
      var t := set i: nat | i < n - 1 && Bit(b, i) :: i;
      assert s == if Bit(b, n - 1) then t + {n - 1} else t;
    }
  }

  lemma SequenceFacts(b: nat)
    ensures |Sequence(b)| == |Ids(b)|
    ensures forall k {:trigger Sequence(b)[k]} :: 0 <= k < |Sequence(b)| ==> Sequence(b)[k] in Ids(b)
    ensures forall j, k {:trigger Sequence(b)[j], Sequence(b)[k]} ::
      0 <= j < k < |Sequence(b)| ==> Sequence(b)[j] < Sequence(b)[k]
    ensures forall i {:trigger i in Ids(b)} :: i in Ids(b) ==> i in Sequence(b)
  {
    hide Bit, Below;
    BelowFacts(b, CARDS);
    BelowSize(b, CARDS);
  }

  lemma HiStep(b: nat, i: nat)
    ensures Hi(b, i) / 2 == Hi(b, i + 1)
  {
    HiHi(b, i, 1);
    assert Hi(Hi(b, i), 1) == Hi(b, i) / 2 by { assert Hi(Hi(b, i) / 2, 0) == Hi(b, i) / 2; }
  }

  /** size() */
  method Size(bits: nat) returns (count: nat)
    requires IsSet(bits)
    ensures count == |Ids(bits)|
  {
    hide Pow2, Hi, Ids;
    count := 0;
    var b := bits;
    HiZero(bits);
    for i := 0 to CARDS
      invariant b == Hi(bits, i) && count == |Below(bits, i)|
    {
      HiStep(bits, i);
      if b % 2 == 1 { count := count + 1; }
      b := b / 2;
    }
    SequenceFacts(bits);
  }

  /** conv2Vector() */
  method ToVector(bits: nat) returns (v: seq<nat>)
    requires IsSet(bits)
    ensures v == Sequence(bits)
  {
    hide Pow2, Hi;
    v := [];
    var b, idx := bits, 0;
    HiZero(bits);
    while b != 0
      invariant b == Hi(bits, idx) && v == Below(bits, idx) && idx <= CARDS
      decreases b
    {
      HiStep(bits, idx);
      if idx == CARDS { NoneAbove(bits); }
      if b % 2 == 1 { v := v + [idx]; }
      b, idx := b / 2, idx + 1;
    }
    RestEmpty(bits, idx, CARDS);
  }

  lemma NoneAbove(b: nat)
    requires IsSet(b)
    ensures Hi(b, CARDS) == 0
  {
    hide Pow2, Hi;
    LoSmall(b, 53);
  }

  lemma {:induction false} RestEmpty(b: nat, i: nat, n: nat)
    requires i <= n && Hi(b, i) == 0
    ensures Below(b, n) == Below(b, i)
  {
    if i < n {
      RestEmpty(b, i, n - 1);
      HiHi(b, i, n - 1 - i);
      HiZeroes(n - 1 - i);
    }
  }

  lemma {:induction false} HiZeroes(n: nat)
    ensures Hi(0, n) == 0
  {
    if n > 0 { HiZeroes(n - 1); }
  }

  /** at() */
  method At(bits: nat, index: nat) returns (c: nat)
    requires IsSet(bits) && index < |Ids(bits)|
    ensures index < |Sequence(bits)| && c == Sequence(bits)[index]
  {
    hide Pow2, Hi, Ids;
    SequenceFacts(bits);
    var hit, b := 0, bits;
    HiZero(bits);
    for i := 0 to CARDS
      invariant b == Hi(bits, i) && hit == |Below(bits, i)| <= index
    {
      HiStep(bits, i);
      if b % 2 == 1 {
        if hit == index {
          BelowPrefix(bits, i + 1, CARDS);
          return i;
        }
        hit := hit + 1;
      }
      b := b / 2;
    }
    assert false;
  }

  lemma {:induction false} BelowPrefix(b: nat, i: nat, n: nat)
    requires i <= n
    ensures Below(b, i) <= Below(b, n)
  {
    if i < n { BelowPrefix(b, i, n - 1); }
  }
}
