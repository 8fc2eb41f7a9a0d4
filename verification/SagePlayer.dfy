/** _genAllCombination(): the memoised, pruned search for every hand that may be put. */
module SagePlayer {
  import opened Bits
  import opened Bytes
  import opened Cards
  import opened DaifugoRule

  // ----- which hands the search can reach -----

  /** Legal hands are legal all the way: their subsets are legal, or no larger than the unpruned ones. */
  ghost predicate Approachable(ba: set<nat>) {
    |ba| <= 3
  }

  lemma SubsetUniform(s: set<nat>, t: set<nat>)
    requires s <= t
    ensures Uniform(t) ==> Uniform(s)
  {
  }

  /** A hand of three or more that is not legal has no legal superset, for a table of at most three cards. */
  lemma PruningIsSafe(revolution: bool, ba: set<nat>, hand: set<nat>, s: set<nat>)
    requires Approachable(ba) && !Legal(revolution, hand, ba) && |hand| >= 3 && hand <= s
    ensures !Legal(revolution, s, ba)
  {
    SubsetSize(hand, s);
    SubsetUniform(hand, s);
  }

  // ----- the search -----

  /** s is a legal hand of the deck that contains h. */
  ghost predicate Above(revolution: bool, ba: nat, all: set<nat>, h: nat, s: nat) {
    IsSet(s) && Ids(h) <= Ids(s) <= all && Legal(revolution, Ids(s), Ids(ba))
  }

  /** Every legal hand above h has been found. */
  ghost predicate Finished(revolution: bool, ba: nat, all: set<nat>, buff: set<nat>, h: nat) {
    forall s: nat :: Above(revolution, ba, all, h, s) ==> s in buff
  }

  /** What is in the buffer: legal hands of the deck; and those not below the current hand are finished. */
  ghost predicate Sound(revolution: bool, ba: nat, all: set<nat>, buff: set<nat>) {
    forall h {:trigger h in buff} :: h in buff ==> IsSet(h) && Ids(h) <= all && Legal(revolution, Ids(h), Ids(ba))
  }

  ghost predicate Settled(revolution: bool, ba: nat, all: set<nat>, buff: set<nat>, base: nat) {
    forall h {:trigger h in buff} :: h in buff && !(Ids(h) <= Ids(base)) ==> Finished(revolution, ba, all, buff, h)
  }

  /** The buffer grew by hands above base only. */
  ghost predicate Grew(buff: set<nat>, buff': set<nat>, base: nat) {
    buff <= buff' && forall h {:trigger h in buff'} :: h in buff' && h !in buff ==> Ids(base) < Ids(h)
  }

  lemma FinishedGrows(revolution: bool, ba: nat, all: set<nat>, buff: set<nat>, buff': set<nat>, h: nat)
    requires Finished(revolution, ba, all, buff, h) && buff <= buff'
    ensures Finished(revolution, ba, all, buff', h)
  {
    hide Above;
  }

  /** On the way into a recursive call. */
  lemma SettledBelow(revolution: bool, ba: nat, all: set<nat>, buff: set<nat>, buff1: set<nat>, base: nat, hand: nat)
    requires Settled(revolution, ba, all, buff, base) && Ids(base) <= Ids(hand)
      && (buff1 == buff || buff1 == buff + {hand})
    ensures Settled(revolution, ba, all, buff1, hand)
  {
    hide Finished, Ids;
    forall h {:trigger h in buff1} | h in buff1 && !(Ids(h) <= Ids(hand))
      ensures Finished(revolution, ba, all, buff1, h)
    {
      assert h in buff;
      FinishedGrows(revolution, ba, all, buff, buff1, h);
    }
  }

  /** Back from a recursive call. */
  lemma SettledAgain(revolution: bool, ba: nat, all: set<nat>, buff: set<nat>, buff1: set<nat>, buff2: set<nat>,
      base: nat, hand: nat, i: nat)
    requires Settled(revolution, ba, all, buff, base) && (buff1 == buff || buff1 == buff + {hand})
    requires Settled(revolution, ba, all, buff2, hand) && Grew(buff1, buff2, hand)
      && Finished(revolution, ba, all, buff2, hand)
    requires Ids(hand) == Ids(base) + {i} && Sound(revolution, ba, all, buff2) && IsSet(hand)
    ensures Settled(revolution, ba, all, buff2, base)
  {
    hide Finished, Ids, Legal, Pow2;
    forall h {:trigger h in buff2} | h in buff2 && !(Ids(h) <= Ids(base))
      ensures Finished(revolution, ba, all, buff2, h)
    {
      if Ids(h) <= Ids(hand) && h != hand {
        assert h in buff1;
        assert h in buff;
        FinishedGrows(revolution, ba, all, buff, buff2, h);
      }
    }
  }

  /** The hand itself and everything above it. */
  lemma HandFinished(revolution: bool, ba: nat, all: set<nat>, buff2: set<nat>, hand: nat)
    requires IsSet(hand)
    requires forall s: nat :: Above(revolution, ba, all, hand, s) && Ids(s) != Ids(hand) ==> s in buff2
    requires Legal(revolution, Ids(hand), Ids(ba)) ==> hand in buff2
    ensures Finished(revolution, ba, all, buff2, hand)
  {
    hide Ids, Legal, Pow2;
    forall s: nat | Above(revolution, ba, all, hand, s)
      ensures s in buff2
    {
      if Ids(s) == Ids(hand) { SameIds(s, hand); }
    }
  }

  /** Nothing legal lies above a pruned hand. */
  lemma PrunedFinished(revolution: bool, ba: nat, all: set<nat>, buff: set<nat>, hand: nat)
    requires Approachable(Ids(ba)) && !Legal(revolution, Ids(hand), Ids(ba)) && |Ids(hand)| >= 3
    ensures Finished(revolution, ba, all, buff, hand)
  {
    hide Ids, Legal, Pow2, Approachable;
    forall s: nat | Above(revolution, ba, all, hand, s)
      ensures s in buff
    {
      PruningIsSafe(revolution, Ids(ba), Ids(hand), Ids(s));
    }
  }

  /** Every hand above base, other than base, is above base with one more card. */
  lemma OneMoreCard(revolution: bool, ba: nat, all: set<nat>, base: nat, deck: nat, s: nat) returns (k: nat)
    requires IsSet(base) && IsSet(deck) && all == Ids(base) + Ids(deck)
    requires Above(revolution, ba, all, base, s) && Ids(s) != Ids(base)
    ensures k < |Sequence(deck)| && Sequence(deck)[k] < CARDS
      && Above(revolution, ba, all, Add(base, Sequence(deck)[k]), s)
  {
    hide Legal, Pow2, Sequence, Bit, Add;
    var c :| c in Ids(s) && c !in Ids(base);
    SequenceFacts(deck);
    assert c in Ids(deck);
    k :| 0 <= k < |Sequence(deck)| && Sequence(deck)[k] == c;
    AddIds(base, c);
  }

  /** What a call does to the buffer. */
  ghost predicate Searched(revolution: bool, ba: nat, all: set<nat>, buff: set<nat>, buff': set<nat>, base: nat) {
    && Sound(revolution, ba, all, buff') && Grew(buff, buff', base)
    && (Approachable(Ids(ba)) ==>
          && Settled(revolution, ba, all, buff', base)
          && forall s: nat :: Above(revolution, ba, all, base, s) && Ids(s) != Ids(base) ==> s in buff')
    && (!Approachable(Ids(ba)) && |Ids(base)| <= 2 ==> buff' == buff)
  }

  /** The recursion, over the deck from the strongest card down; all is the hand and the deck together. */
  method GenAllCombination(revolution: bool, buff: set<nat>, base: nat, deck: nat, ba: nat, ghost all: set<nat>)
    returns (buff': set<nat>)
    requires IsSet(base) && IsSet(deck) && IsSet(ba) && Ids(base) !! Ids(deck) && all == Ids(base) + Ids(deck)
    requires Sound(revolution, ba, all, buff)
    requires Approachable(Ids(ba)) ==> Settled(revolution, ba, all, buff, base)
    ensures Searched(revolution, ba, all, buff, buff', base)
    decreases |Ids(deck)|, 1
  {
    hide Ids, Legal, Pow2, Finished, Sound, Settled, Sequence, Add, Remove, Approachable, Above;
    buff' := buff;
    var n := Size(base);
    var tmp := ToVector(deck);
    SequenceFacts(deck);
    var k := |tmp|;
    while k > 0
      invariant 0 <= k <= |tmp| && Sound(revolution, ba, all, buff') && Grew(buff, buff', base)
      invariant Approachable(Ids(ba)) ==> Settled(revolution, ba, all, buff', base)
      invariant Approachable(Ids(ba)) ==>
        forall j {:trigger tmp[j]} :: k <= j < |tmp| ==> Finished(revolution, ba, all, buff', Add(base, tmp[j]))
      invariant !Approachable(Ids(ba)) && |Ids(base)| <= 2 ==> buff' == buff
    {
      k := k - 1;
      ghost var before := buff';
      buff' := TryCard(revolution, buff', base, deck, ba, all, n, tmp[k]);
      if Approachable(Ids(ba)) {
        forall j {:trigger tmp[j]} | k < j < |tmp|
          ensures Finished(revolution, ba, all, buff', Add(base, tmp[j]))
        {
          FinishedGrows(revolution, ba, all, before, buff', Add(base, tmp[j]));
        }
      }
    }
    if Approachable(Ids(ba)) {
      forall s: nat | Above(revolution, ba, all, base, s) && Ids(s) != Ids(base)
        ensures s in buff'
      {
        var j := OneMoreCard(revolution, ba, all, base, deck, s);
        FoundAbove(revolution, ba, all, buff', Add(base, tmp[j]), s);
      }
    }
  }

  lemma FoundAbove(revolution: bool, ba: nat, all: set<nat>, buff: set<nat>, h: nat, s: nat)
    requires Finished(revolution, ba, all, buff, h) && Above(revolution, ba, all, h, s)
    ensures s in buff
  {
    hide Above;
  }

  lemma NotInSmall(revolution: bool, ba: nat, hand: nat)
    requires !Approachable(Ids(ba)) && |Ids(hand)| <= 3
    ensures !Legal(revolution, Ids(hand), Ids(ba))
  {
    hide Ids, Uniform;
  }

  /** The body of the loop, for card i. */
  method TryCard(revolution: bool, buff: set<nat>, base: nat, deck: nat, ba: nat, ghost all: set<nat>, n: nat, i: nat)
    returns (buff2: set<nat>)
    requires IsSet(base) && IsSet(deck) && IsSet(ba) && Ids(base) !! Ids(deck) && all == Ids(base) + Ids(deck)
    requires i in Ids(deck) && n == |Ids(base)|
    requires Sound(revolution, ba, all, buff) && (Approachable(Ids(ba)) ==> Settled(revolution, ba, all, buff, base))
    ensures Sound(revolution, ba, all, buff2) && Grew(buff, buff2, base)
    ensures Approachable(Ids(ba)) ==>
      Settled(revolution, ba, all, buff2, base) && Finished(revolution, ba, all, buff2, Add(base, i))
    ensures !Approachable(Ids(ba)) && n <= 2 ==> buff2 == buff
    decreases |Ids(deck)|, 0
  {
    hide Ids, Legal, Pow2, Finished, Sound, Settled, Grew, Add, Remove, Approachable, Searched;
    IdsBelow(deck);
    AddIds(base, i);
    var hand := Add(base, i);
    SizeOfHand(base, hand, i, n);
    buff2 := buff;
    GrewNot(buff, base);
    if hand in buff {
      if Approachable(Ids(ba)) { AlreadySeen(revolution, ba, all, buff, base, hand, i); }
      return;
    }
    var verdict := CanPut(revolution, hand, ba);
    var buff1 := buff;
    if !Approachable(Ids(ba)) && n <= 2 { NotInSmall(revolution, ba, hand); }
    if verdict == OK {
      buff1 := buff + {hand};
      SoundMore(revolution, ba, all, buff, hand);
    } else if n >= 2 {
      if Approachable(Ids(ba)) { PrunedFinished(revolution, ba, all, buff, hand); }
      return;
    }
    RemoveIds(deck, i);
    var deck2 := Remove(deck, i);
    SmallerDeck(deck, deck2, i);
    if Approachable(Ids(ba)) { SettledBelow(revolution, ba, all, buff, buff1, base, hand); }
    buff2 := GenAllCombination(revolution, buff1, hand, deck2, ba, all);
    AfterCall(revolution, ba, all, buff, buff1, buff2, base, hand, i);
  }

  lemma SizeOfHand(base: nat, hand: nat, i: nat, n: nat)
    requires Ids(hand) == Ids(base) + {i} && i !in Ids(base) && n == |Ids(base)|
    ensures |Ids(hand)| == n + 1 && Ids(hand) != {} && Ids(base) < Ids(hand)
  {
    hide Ids;
  }

  lemma SmallerDeck(deck: nat, deck2: nat, i: nat)
    requires Ids(deck2) == Ids(deck) - {i} && i in Ids(deck)
    ensures |Ids(deck2)| < |Ids(deck)|
  {
    hide Ids;
  }

  lemma GrewNot(buff: set<nat>, base: nat)
    ensures Grew(buff, buff, base)
  {
  }

  lemma SoundMore(revolution: bool, ba: nat, all: set<nat>, buff: set<nat>, hand: nat)
    requires Sound(revolution, ba, all, buff) && IsSet(hand) && Ids(hand) <= all
      && Legal(revolution, Ids(hand), Ids(ba))
    ensures Sound(revolution, ba, all, buff + {hand})
  {
    hide Ids, Legal, Pow2;
  }

  /** A hand in the buffer was finished when it was put there. */
  lemma AlreadySeen(revolution: bool, ba: nat, all: set<nat>, buff: set<nat>, base: nat, hand: nat, i: nat)
    requires Settled(revolution, ba, all, buff, base) && hand in buff && Ids(hand) == Ids(base) + {i} && i !in Ids(base)
    ensures Finished(revolution, ba, all, buff, hand)
  {
    hide Ids, Finished;
    assert i in Ids(hand);
  }

  lemma AfterCall(revolution: bool, ba: nat, all: set<nat>, buff: set<nat>, buff1: set<nat>, buff2: set<nat>, base: nat,
      hand: nat, i: nat)
    requires IsSet(hand) && Ids(hand) == Ids(base) + {i} && i !in Ids(base)
    requires Searched(revolution, ba, all, buff1, buff2, hand)
    requires if Legal(revolution, Ids(hand), Ids(ba)) then buff1 == buff + {hand} else buff1 == buff
    requires Approachable(Ids(ba)) ==> Settled(revolution, ba, all, buff, base)
    ensures Sound(revolution, ba, all, buff2) && Grew(buff, buff2, base)
    ensures Approachable(Ids(ba)) ==>
      Settled(revolution, ba, all, buff2, base) && Finished(revolution, ba, all, buff2, hand)
    ensures !Approachable(Ids(ba)) && |Ids(hand)| <= 2 ==> buff2 == buff1
  {
    hide Ids, Legal, Pow2, Finished, Sound, Settled, Approachable, Above;
    if Approachable(Ids(ba)) {
      HandFinished(revolution, ba, all, buff2, hand);
      SettledAgain(revolution, ba, all, buff, buff1, buff2, base, hand, i);
    }
  }

  /** The hands the search is meant to find. */
  ghost predicate IsMove(revolution: bool, deck: nat, ba: nat, h: nat) {
    IsSet(h) && Ids(h) <= Ids(deck) && Allowed(revolution, Ids(h), Ids(ba))
  }

  /**
    _enumrateAvairableHands(): with at most three cards on the table (or none) it finds exactly the
    legal hands of the deck; with four or more it finds nothing. So it is complete exactly when the
    table holds at most three cards or the deck has no answer to it.
   */
  method EnumerateHands(revolution: bool, deck: nat, ba: nat) returns (buff: set<nat>)
    requires IsSet(deck) && IsSet(ba)
    ensures |Ids(ba)| <= 3 ==> forall h: nat :: h in buff <==> IsMove(revolution, deck, ba, h)
    ensures |Ids(ba)| > 3 ==> buff == {}
    ensures |Ids(ba)| == 1 && JOKER !in Ids(ba) && JOKER in Ids(deck) ==>
      forall h: nat :: IsSet(h) && Ids(h) == {JOKER} ==> h in buff
    ensures (forall h: nat :: h in buff <==> IsMove(revolution, deck, ba, h))
      <==> (|Ids(ba)| <= 3 || !CanAnswer(revolution, Ids(deck), Ids(ba)))
  {
    hide Ids, Legal, Pow2, Finished, Sound, Settled, Searched, Above, CanAnswer, IsMove;
    StartsEmpty();
    StartsSound(revolution, ba, Ids(deck));
    buff := GenAllCombination(revolution, {}, 0, deck, ba, Ids(deck));
    Finds(revolution, deck, ba, buff);
    if |Ids(ba)| > 3 { AnswerExists(revolution, deck, ba); }
    if |Ids(ba)| == 1 && JOKER !in Ids(ba) && JOKER in Ids(deck) {
      forall h: nat | IsSet(h) && Ids(h) == {JOKER}
        ensures h in buff
      {
        JokerIsMove(revolution, deck, ba, h);
      }
    }
  }

  lemma StartsEmpty()
    ensures IsSet(0) && Ids(0) == {}
  {
    hide Pow2;
    EmptyIds(0);
  }

  lemma StartsSound(revolution: bool, ba: nat, all: set<nat>)
    ensures Sound(revolution, ba, all, {}) && Settled(revolution, ba, all, {}, 0)
  {
  }

  lemma Finds(revolution: bool, deck: nat, ba: nat, buff: set<nat>)
    requires IsSet(ba) && Searched(revolution, ba, Ids(deck), {}, buff, 0)
    ensures |Ids(ba)| <= 3 ==> forall h: nat :: h in buff <==> IsMove(revolution, deck, ba, h)
    ensures |Ids(ba)| > 3 ==> buff == {}
  {
    hide Ids, Legal, Allowed, Pow2;
    StartsEmpty();
    if |Ids(ba)| <= 3 {
      forall h: nat
        ensures h in buff <==> IsMove(revolution, deck, ba, h)
      {
        if IsSet(h) { LegalIsAllowed(revolution, h, ba); }
        if IsMove(revolution, deck, ba, h) {
          LegalNotEmpty(revolution, Ids(h), Ids(ba));
          assert Above(revolution, ba, Ids(deck), 0, h);
        }
      }
    }
  }

  lemma LegalNotEmpty(revolution: bool, hand: set<nat>, ba: set<nat>)
    requires Legal(revolution, hand, ba)
    ensures hand != {}
  {
  }

  // ----- the hands the search misses -----

  /** The cards of one rank in a set, with the joker. */
  function OfRank(s: set<nat>, rank: nat): set<nat> {
    set c | c in s && (c == JOKER || Rank(c) == rank) :: c
  }

  /** The rank beats every card on the table but the joker. */
  ghost predicate Outranks(revolution: bool, ba: set<nat>, rank: nat) {
    forall t {:trigger t in ba} :: t in ba && t < JOKER ==> Stronger(revolution, Rank(t), rank)
  }

  /**
    The table is of one number and not the joker alone, and the deck has as many cards of one stronger rank,
    the joker counted; or the table is one card and the deck has the joker.
   */
  ghost predicate CanAnswer(revolution: bool, deck: set<nat>, ba: set<nat>) {
    && Uniform(ba) && ba != {JOKER}
    && (|| (|ba| == 1 && JOKER in deck)
        || exists rank: nat :: rank < 13 && Outranks(revolution, ba, rank) && |OfRank(deck, rank)| >= |ba|)
  }

  /** Any set of cards is a word. */
  lemma WordOf(s: set<nat>) returns (b: nat)
    requires forall c {:trigger c in s} :: c in s ==> c < CARDS
    ensures IsSet(b) && Ids(b) == s
    decreases |s|
  {
    hide Ids, Pow2, Add;
    if s == {} {
      StartsEmpty();
      b := 0;
    } else {
      var c :| c in s;
      var b0 := WordOf(s - {c});
      AddIds(b0, c);
      b := Add(b0, c);
    }
  }

  lemma SomeOf(s: set<nat>, n: nat) returns (t: set<nat>)
    requires n <= |s|
    ensures t <= s && |t| == n
    decreases |s|
  {
    if n == |s| {
      t := s;
    } else {
      var c :| c in s;
      t := SomeOf(s - {c}, n);
    }
  }

  /** Enough cards of a stronger rank are a move. */
  lemma AnswerIsAllowed(revolution: bool, hand: set<nat>, ba: set<nat>, deck: set<nat>, rank: nat)
    requires |hand| == |ba| > 0 && hand <= OfRank(deck, rank)
    requires Uniform(ba) && ba != {JOKER} && Outranks(revolution, ba, rank)
    ensures Allowed(revolution, hand, ba)
  {
    forall x {:trigger x in hand} | x in hand && x < JOKER
      ensures Rank(x) == rank
    {
      assert x in OfRank(deck, rank);
    }
  }

  /** The joker alone is a move on any other card. */
  lemma JokerIsAllowed(revolution: bool, ba: set<nat>)
    requires |ba| == 1 && ba != {JOKER} && Uniform(ba)
    ensures Allowed(revolution, {JOKER}, ba)
  {
  }

  /** A move is the joker on a single card, or consists of cards of a stronger rank. */
  lemma AllowedIsAnswer(revolution: bool, hand: set<nat>, ba: set<nat>, deck: set<nat>)
    requires Allowed(revolution, hand, ba) && ba != {} && hand <= deck
    requires forall x {:trigger x in deck} :: x in deck ==> x <= JOKER
    ensures CanAnswer(revolution, deck, ba)
  {
    if x :| x in hand && x < JOKER {
      var rank := Rank(x);
      forall y {:trigger y in hand} | y in hand
        ensures y in OfRank(deck, rank)
      {
        assert y in deck;
      }
      SubsetSize(hand, OfRank(deck, rank));
      assert Outranks(revolution, ba, rank);
    } else {
      var x :| x in hand;
      assert x in deck;
      assert x == JOKER;
      assert hand == {JOKER} by {
        forall y {:trigger y in hand} | y in hand
          ensures y == JOKER
        {
          assert y in deck;
        }
      }
    }
  }

  /** On one card or more, there is a move exactly when the deck has an answer. */
  lemma AnswerExists(revolution: bool, deck: nat, ba: nat)
    requires IsSet(deck) && IsSet(ba) && Ids(ba) != {}
    ensures CanAnswer(revolution, Ids(deck), Ids(ba)) <==> exists h: nat :: IsMove(revolution, deck, ba, h)
  {
    hide Ids, Pow2, Legal, OfRank, Outranks, Uniform, Allowed;
    IdsBelow(deck);
    if CanAnswer(revolution, Ids(deck), Ids(ba)) {
      var hand := AnswerOf(revolution, Ids(deck), Ids(ba));
      var h := WordOf(hand);
      assert IsMove(revolution, deck, ba, h);
    }
    if h: nat :| IsMove(revolution, deck, ba, h) {
      AllowedIsAnswer(revolution, Ids(h), Ids(ba), Ids(deck));
    }
  }

  lemma AnswerOf(revolution: bool, deck: set<nat>, ba: set<nat>) returns (hand: set<nat>)
    requires CanAnswer(revolution, deck, ba) && ba != {}
    ensures hand <= deck && Allowed(revolution, hand, ba)
  {
    hide OfRank, Outranks, Uniform, Allowed;
    if |ba| == 1 && JOKER in deck {
      hand := {JOKER};
      JokerIsAllowed(revolution, ba);
    } else {
      var rank: nat :| rank < 13 && Outranks(revolution, ba, rank) && |OfRank(deck, rank)| >= |ba|;
      hand := SomeOf(OfRank(deck, rank), |ba|);
      AnswerIsAllowed(revolution, hand, ba, deck, rank);
      OfRankWithin(deck, rank);
    }
  }

  /** The joker is among the moves whenever the deck has it and one other card is on the table. */
  lemma JokerIsMove(revolution: bool, deck: nat, ba: nat, h: nat)
    requires IsSet(h) && Ids(h) == {JOKER} && JOKER in Ids(deck) && |Ids(ba)| == 1 && JOKER !in Ids(ba)
    ensures IsMove(revolution, deck, ba, h)
  {
    hide Ids, Pow2;
    var c :| c in Ids(ba);
    SubsetSize({c}, Ids(ba));
    JokerIsAllowed(revolution, Ids(ba));
  }

  lemma OfRankWithin(s: set<nat>, rank: nat)
    ensures OfRank(s, rank) <= s
  {
  }

  /** The four threes are on the table and the deck is the four fours, a legal answer; the search finds nothing. */
  method MissedHand() returns (deck: nat, ba: nat, buff: set<nat>)
    ensures IsSet(deck) && Ids(deck) == {4, 5, 6, 7} && IsSet(ba) && Ids(ba) == {0, 1, 2, 3}
    ensures IsMove(false, deck, ba, deck) && buff == {}
  {
    hide Ids, Pow2, Add, IsMove;
    deck, ba := 0xf0, 0xf;
    Threes();
    Fours();
    FoursMove(deck, ba);
    buff := EnumerateHands(false, deck, ba);
  }

  lemma Threes()
    ensures IsSet(0xf) && Ids(0xf) == {0, 1, 2, 3}
  {
    hide Ids, Pow2;
    StartsEmpty();
    AddIds(0, 0);
    AddIds(1, 1);
    AddIds(3, 2);
    AddIds(7, 3);
  }

  lemma Fours()
    ensures IsSet(0xf0) && Ids(0xf0) == {4, 5, 6, 7}
  {
    hide Ids, Pow2;
    StartsEmpty();
    AddIds(0, 4);
    AddIds(0x10, 5);
    AddIds(0x30, 6);
    AddIds(0x70, 7);
  }

  lemma FoursMove(deck: nat, ba: nat)
    requires IsSet(deck) && Ids(deck) == {4, 5, 6, 7} && Ids(ba) == {0, 1, 2, 3}
    ensures IsMove(false, deck, ba, deck) && |Ids(ba)| == 4
  {
    hide Ids, Pow2;
  }
}
