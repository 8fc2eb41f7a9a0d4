/** The rules of class A: which hand may be put on the cards on the table. */
module DaifugoRule {
  import opened Bits
  import opened Bytes
  import opened Cards

  datatype ChkResult = OK | ERR_DIFFERENT_NUM | ERR_COUNT_UNMATCH | ERR_INVALID_BA | ERR_NOT_STRONG

  // ----- the rules, on sets of cards -----

  /** All cards but the joker have one number. */
  ghost predicate Uniform(s: set<nat>) {
    forall a, b {:trigger a in s, b in s} :: a in s && b in s && a < JOKER && b < JOKER ==> Rank(a) == Rank(b)
  }

  /** The weakest card of a set decides its strength. */
  ghost predicate IsFirst(s: set<nat>, c: nat) {
    c in s && forall a {:trigger a in s} :: a in s ==> c <= a
  }

  /** Card b beats card a: a higher rank, or a lower one after a revolution, but the joker is always the strongest. */
  predicate Beats(revolution: bool, a: nat, b: nat) {
    if a == JOKER then false
    else if b == JOKER then true
    else if revolution then Rank(b) < Rank(a)
    else Rank(b) > Rank(a)
  }

  /** A hand that may be put on the table ba, in a few words. */
  ghost predicate Legal(revolution: bool, hand: set<nat>, ba: set<nat>) {
    && hand != {} && Uniform(hand)
    && (ba != {} ==>
          && |hand| == |ba| && Uniform(ba)
          && forall a, b {:trigger IsFirst(ba, a), IsFirst(hand, b)} ::
            IsFirst(ba, a) && IsFirst(hand, b) ==> Beats(revolution, a, b))
  }

  /** A rank beats another one. */
  predicate Stronger(revolution: bool, q: nat, r: nat) {
    if revolution then r < q else q < r
  }

  /**
    The rule card by card: as many cards as on the table, each of one number; the joker goes with any number,
    and alone it beats any other card, while nothing beats it; all other cards of the hand beat all other
    cards of the table.
   */
  ghost predicate Allowed(revolution: bool, hand: set<nat>, ba: set<nat>) {
    && hand != {} && Uniform(hand)
    && (ba != {} ==>
          && |hand| == |ba| && Uniform(ba) && ba != {JOKER}
          && forall t, x {:trigger t in ba, x in hand} ::
            t in ba && x in hand && t < JOKER && x < JOKER ==> Stronger(revolution, Rank(t), Rank(x)))
  }

  lemma SubsetSize(s: set<nat>, t: set<nat>)
    requires s <= t
    ensures |s| <= |t| && (|s| == |t| ==> s == t)
  {
    assert t == s + (t - s);
  }

  /** Of two or more cards the first is not the joker. */
  lemma FirstNotJoker(s: set<nat>, c: nat)
    requires |s| > 1 && IsFirst(s, c) && forall x {:trigger x in s} :: x in s ==> x <= JOKER
    ensures c < JOKER
  {
    if c == JOKER { SubsetSize(s, {JOKER}); }
  }

  /** A single card is the first one. */
  lemma SingleFirst(s: set<nat>, c: nat)
    requires |s| == 1 && IsFirst(s, c)
    ensures s == {c}
  {
    SubsetSize({c}, s);
  }

  /** Comparing the first cards is the rule, card by card. */
  lemma LegalIsAllowed(revolution: bool, cards: nat, ba: nat)
    requires IsSet(cards) && IsSet(ba)
    ensures Legal(revolution, Ids(cards), Ids(ba)) <==> Allowed(revolution, Ids(cards), Ids(ba))
  {
    hide Ids, Pow2, Sequence;
    IdsBelow(cards);
    IdsBelow(ba);
    if Ids(cards) != {} && Ids(ba) != {} && |Ids(cards)| == |Ids(ba)| && Uniform(Ids(cards)) && Uniform(Ids(ba)) {
      FirstOfSequence(cards);
      FirstOfSequence(ba);
      var a, b := Sequence(ba)[0], Sequence(cards)[0];
      FirstDecides(revolution, Ids(cards), Ids(ba), b, a);
      FirstsCompare(revolution, Ids(cards), Ids(ba), a, b);
    }
  }

  lemma FirstsCompare(revolution: bool, hand: set<nat>, ba: set<nat>, a: nat, b: nat)
    requires IsFirst(ba, a) && IsFirst(hand, b) && |hand| == |ba| && Uniform(hand) && Uniform(ba)
    requires forall x {:trigger x in hand} :: x in hand ==> x <= JOKER
    requires forall x {:trigger x in ba} :: x in ba ==> x <= JOKER
    ensures Beats(revolution, a, b) <==> Allowed(revolution, hand, ba)
  {
    if |ba| == 1 {
      SingleFirst(ba, a);
      SingleFirst(hand, b);
    } else {
      AtLeastOne(ba, a);
      FirstNotJoker(ba, a);
      FirstNotJoker(hand, b);
    }
  }

  lemma AtLeastOne(s: set<nat>, c: nat)
    requires c in s
    ensures |s| >= 1
  {
    SubsetSize({c}, s);
  }

  lemma FirstOfSequence(b: nat)
    requires IsSet(b) && Ids(b) != {}
    ensures |Sequence(b)| > 0 && IsFirst(Ids(b), Sequence(b)[0])
  {
    hide Ids, Sequence, Pow2;
    SequenceFacts(b);
    var c :| c in Ids(b);
    assert c in Sequence(b);
  }

  lemma FirstUnique(s: set<nat>, a: nat, b: nat)
    requires IsFirst(s, a) && IsFirst(s, b)
    ensures a == b
  {
  }

  // ----- the code -----

  /** _tryGetFirstCard(): the first card, if all but the joker have one number. */
  method TryGetFirstCard(cards: nat) returns (first: Option<nat>)
    requires IsSet(cards)
    ensures first.Some? <==> Ids(cards) != {} && Uniform(Ids(cards))
    ensures first.Some? ==> IsFirst(Ids(cards), first.value) && first.value < CARDS
  {
    hide Ids, Pow2, Sequence;
    SequenceFacts(cards);
    IdsBelow(cards);
    var size := Size(cards);
    if size == 0 {
      assert Ids(cards) == {};
      return None;
    }
    NotEmpty(cards);
    FirstOfSequence(cards);
    ghost var v := Sequence(cards);
    if size == 1 {
      var c := At(cards, 0);
      OneUniform(cards);
      return Some(c);
    }
    assert v[0] < v[1] && v[1] in Ids(cards);
    var check: Option<nat> := None;
    for i := 0 to size
      invariant check.None? ==> i == 0
      invariant check.Some? ==> i > 0 && check.value == v[0]
      invariant forall k {:trigger v[k]} :: 0 <= k < i && v[k] < JOKER ==> Rank(v[k]) == Rank(v[0])
    {
      var c := At(cards, i);
      assert v[i] in Ids(cards);
      if c != JOKER {
        if check.None? {
          check := Some(c);
        } else {
          SameNum(check.value, c);
          if Num(check.value) != Num(c) {
            NotUniform(cards, v[0], v[i]);
            return None;
          }
        }
      }
    }
    AllUniform(cards);
    return check;
  }

  lemma IdsBelow(b: nat)
    ensures forall c {:trigger c in Ids(b)} :: c in Ids(b) ==> c <= JOKER
  {
  }

  lemma NotEmpty(b: nat)
    requires |Ids(b)| > 0
    ensures Ids(b) != {}
  {
  }

  lemma OneUniform(b: nat)
    requires |Ids(b)| == 1
    ensures Uniform(Ids(b))
  {
    hide Ids, Sequence;
    SequenceFacts(b);
  }

  lemma NotUniform(b: nat, x: nat, y: nat)
    requires x in Ids(b) && y in Ids(b) && x < JOKER && y < JOKER && Rank(x) != Rank(y)
    ensures !Uniform(Ids(b))
  {
    hide Ids;
  }

  lemma AllUniform(b: nat)
    requires forall k {:trigger Sequence(b)[k]} ::
      0 <= k < |Sequence(b)| && Sequence(b)[k] < JOKER ==> Rank(Sequence(b)[k]) == Rank(Sequence(b)[0])
    ensures Uniform(Ids(b))
  {
    hide Ids, Sequence, Rank;
    SequenceFacts(b);
  }

  /** compareCards() */
  method CompareCards(revolution: bool, a: nat, b: nat) returns (r: int)
    requires a < CARDS && b < CARDS
    ensures r > 0 <==> Beats(revolution, a, b)
    ensures r == 0 <==> Rank(a) == Rank(b)
  {
    SameNum(a, b);
    if Num(a) == Num(b) { return 0; }
    if a == JOKER { return -1; }
    if b == JOKER { return 1; }
    var ret := if a > b then -1 else 1;
    r := if revolution then -ret else ret;
  }

  /** DaifugoRuleA::canPut() */
  method CanPut(revolution: bool, cards: nat, ba: nat) returns (r: ChkResult)
    requires IsSet(cards) && IsSet(ba)
    ensures r == OK <==> Ids(cards) == {} || Allowed(revolution, Ids(cards), Ids(ba))
    ensures r == OK <==> Ids(cards) == {} || Legal(revolution, Ids(cards), Ids(ba))
    ensures r == ERR_DIFFERENT_NUM <==> Ids(cards) != {} && !Uniform(Ids(cards))
    ensures r == ERR_COUNT_UNMATCH <==>
      Ids(cards) != {} && Uniform(Ids(cards)) && Ids(ba) != {} && |Ids(cards)| != |Ids(ba)|
    ensures r == ERR_INVALID_BA <==>
      Ids(cards) != {} && Uniform(Ids(cards)) && Ids(ba) != {} && |Ids(cards)| == |Ids(ba)| && !Uniform(Ids(ba))
  {
    hide Ids, Pow2, Uniform, IsFirst, Beats, Allowed;
    LegalIsAllowed(revolution, cards, ba);
    EmptyIds(cards);
    EmptyIds(ba);
    if cards == 0 { return OK; }
    var first := TryGetFirstCard(cards);
    if first.None? { return ERR_DIFFERENT_NUM; }
    if ba == 0 { return OK; }
    var baSize := Size(ba);
    var size := Size(cards);
    if baSize != size { return ERR_COUNT_UNMATCH; }
    var baFirst := TryGetFirstCard(ba);
    if baFirst.None? { return ERR_INVALID_BA; }
    FirstDecides(revolution, Ids(cards), Ids(ba), first.value, baFirst.value);
    var cmp := CompareCards(revolution, baFirst.value, first.value);
    if cmp <= 0 { return ERR_NOT_STRONG; }
    return OK;
  }

  lemma FirstDecides(revolution: bool, hand: set<nat>, ba: set<nat>, b: nat, a: nat)
    requires IsFirst(hand, b) && IsFirst(ba, a)
    ensures (forall x, y {:trigger IsFirst(ba, x), IsFirst(hand, y)} :: IsFirst(ba, x) && IsFirst(hand, y) ==>
        Beats(revolution, x, y))
      <==> Beats(revolution, a, b)
  {
    hide IsFirst, Beats;
    forall x, y {:trigger IsFirst(ba, x), IsFirst(hand, y)} | IsFirst(ba, x) && IsFirst(hand, y)
      ensures x == a && y == b
    {
      FirstUnique(ba, x, a);
      FirstUnique(hand, y, b);
    }
  }

  /** The joker may be put on any other single card, and no single card on the joker, before and after a revolution. */
  method JokerBeats(revolution: bool, joker: nat, card: nat) returns (on: ChkResult, under: ChkResult)
    requires IsSet(joker) && Ids(joker) == {JOKER} && IsSet(card) && |Ids(card)| == 1 && JOKER !in Ids(card)
    ensures on == OK && under == ERR_NOT_STRONG
  {
    hide Ids, Pow2;
    var c :| c in Ids(card);
    SubsetSize({c}, Ids(card));
    on := CanPut(revolution, joker, card);
    under := CanPut(revolution, card, joker);
  }
}
