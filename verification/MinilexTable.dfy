/** minilex: the byte table of a trie, and lextable_decode, which walks it. */
module MinilexTable {
  import opened Bytes
  import opened MinilexTrie

  // ----- complete tries -----

  /** The trie of all the words. */
  ghost predicate Complete(words: seq<Word>, st: seq<seq<Edge>>, path: seq<Word>) {
    PrefixFree(words) && Trie(words, |words|, st, path, [])
  }

  lemma StateOf(words: seq<Word>, st: seq<seq<Edge>>, path: seq<Word>, s: nat)
    requires Complete(words, st, path) && s < |st|
    ensures |path| == |st| && GoodState(words, |words|, st, path, [], s)
  {
    hide GoodState, PrefixFree;
    StateIs(words, |words|, st, path, [], s);
  }

  lemma SameText(words: seq<Word>, st: seq<seq<Edge>>, path: seq<Word>, s: nat, t: nat)
    requires Complete(words, st, path) && s < |st| && t < |st| && |path| == |st| && path[s] == path[t]
    ensures s == t
  {
    hide GoodState, PrefixFree;
  }

  lemma WordState(words: seq<Word>, st: seq<seq<Edge>>, path: seq<Word>, i: nat) returns (s: nat)
    requires Complete(words, st, path) && i < |words|
    ensures s < |st| == |path| && path[s] == words[i] && st[s] == [Edge(i, 0)]
  {
    hide GoodState, PrefixFree;
    assert WordEnds(words, st, path, i);
    s :| s < |st| && path[s] == words[i] && st[s] == [Edge(i, 0)];
  }

  /** Every text before a state's text has a state. */
  lemma {:induction false} PrefixState(words: seq<Word>, st: seq<seq<Edge>>, path: seq<Word>, s: nat, k: nat)
    returns (u: nat)
    requires Complete(words, st, path) && s < |st| && |path| == |st| && k <= |path[s]|
    ensures u < |st| && path[u] == path[s][..k]
  {
    hide Complete, GoodEdges;
    if k == |path[s]| {
      assert path[s][..k] == path[s];
      u := s;
    } else {
      RootText(words, st, path);
      StateOf(words, st, path, s);
      var p :| 0 <= p < s && path[s] != [] && path[p] == path[s][..|path[s]| - 1];
      u := PrefixState(words, st, path, p, k);
      assert path[s][..|path[s]| - 1][..k] == path[s][..k];
    }
  }

  lemma RootText(words: seq<Word>, st: seq<seq<Edge>>, path: seq<Word>)
    requires Complete(words, st, path)
    ensures |path| == |st| > 0 && path[0] == []
  {
    hide GoodState, PrefixFree;
  }

  /** Where a word goes on, the state has an option for its next character. */
  lemma HasNext(words: seq<Word>, st: seq<seq<Edge>>, path: seq<Word>, s: nat, i: nat)
    requires Complete(words, st, path) && s < |st| && |path| == |st| && i < |words| && path[s] < words[i]
    ensures !IsTerminal(st[s]) && Find(st[s], words[i][|path[s]|]).Some?
  {
    hide Complete, GoodEdges;
    var e := WordState(words, st, path, i);
    var k := |path[s]|;
    var t := PrefixState(words, st, path, e, k + 1);
    RootText(words, st, path);
    StateOf(words, st, path, t);
    var p :| 0 <= p < t && path[t] != [] && path[p] == path[t][..|path[t]| - 1] && !IsTerminal(st[p])
      && Find(st[p], path[t][|path[t]| - 1]) == Some(t);
    assert path[t][..|path[t]| - 1] == path[s];
    SameText(words, st, path, p, s);
  }

  /** A state that is no terminal lies on the way to some word, and none has ended yet. */
  lemma OnTheWay(words: seq<Word>, st: seq<seq<Edge>>, path: seq<Word>, s: nat) returns (i: nat)
    requires Complete(words, st, path) && s < |st| && |path| == |st| && !IsTerminal(st[s])
    ensures i < |words| && path[s] < words[i] && st[s] != []
    ensures forall j {:trigger words[j]} :: 0 <= j < |words| ==> !(words[j] <= path[s])
  {
    hide GoodEdges, HasParent;
    StateOf(words, st, path, s);
    if path[s] == [] { i := 0; } else { i :| 0 <= i < |words| && path[s] <= words[i]; }
    assert IsWord(words[0]);
    if path[s] == words[i] {
      var e := WordState(words, st, path, i);
      SameText(words, st, path, s, e);
    }
    HasNext(words, st, path, s, i);
    forall j {:trigger words[j]} | 0 <= j < |words|
      ensures !(words[j] <= path[s])
    {
      PrefixChain(words[j], path[s], words[i]);
    }
  }

  lemma PrefixChain(a: Word, b: Word, c: Word)
    ensures a <= b && b <= c ==> a <= c
  {
  }

  // ----- the byte table -----

  /** bytepos: two bytes per option of the states before. */
  function Pos(st: seq<seq<Edge>>, s: nat): nat
    requires s <= |st|
  {
    if s == 0 then 0 else Pos(st, s - 1) + 2 * |st[s - 1]|
  }

  lemma {:induction false} PosMono(st: seq<seq<Edge>>, s: nat, t: nat)
    requires s < t <= |st|
    ensures Pos(st, s) + 2 * |st[s]| <= Pos(st, t)
    decreases t
  {
    if s < t - 1 { PosMono(st, s, t - 1); }
  }

  lemma {:induction false} PosEven(st: seq<seq<Edge>>, s: nat)
    requires s <= |st|
    ensures Pos(st, s) % 2 == 0
  {
    if s > 0 { PosEven(st, s - 1); }
  }

  /** How far option m of state s jumps, in pairs of bytes. */
  function Jump(st: seq<seq<Edge>>, s: nat, m: nat): int
    requires s < |st| && m < |st[s]| && st[s][m].to < |st|
  {
    (Pos(st, st[s][m].to) - (Pos(st, s) + 2 * m)) / 2
  }

  /** Every option leads to a state, and its jump fits in a byte. */
  predicate OptionFits(st: seq<seq<Edge>>, s: nat, m: nat)
    requires s < |st| && m < |st[s]|
  {
    var e := st[s][m]; e.to < |st| && (e.to != 0 ==> Jump(st, s, m) <= 0xff)
  }

  predicate StateFits(st: seq<seq<Edge>>, s: nat)
    requires s < |st|
  {
    forall m: nat :: m < |st[s]| ==> OptionFits(st, s, m)
  }

  predicate Fits(st: seq<seq<Edge>>) {
    forall s: nat :: s < |st| ==> StateFits(st, s)
  }

  /** The two bytes of an option: the character, marked if it is the last option, and the jump, 0 at a terminal. */
  predicate OptionAt(st: seq<seq<Edge>>, table: seq<Byte>, s: nat, m: nat)
    requires s < |st| && m < |st[s]|
  {
    var p, e := Pos(st, s) + 2 * m, st[s][m];
    && p + 1 < |table| && e.to < |st| && e.c < 128
    && table[p] == e.c + (if m == |st[s]| - 1 then 128 else 0)
    && table[p + 1] == if e.to == 0 then 0 else Jump(st, s, m)
  }

  predicate StateAt(st: seq<seq<Edge>>, table: seq<Byte>, s: nat)
    requires s < |st|
  {
    forall m: nat :: m < |st[s]| ==> OptionAt(st, table, s, m)
  }

  predicate Emitted(st: seq<seq<Edge>>, table: seq<Byte>) {
    forall s: nat :: s < |st| ==> StateAt(st, table, s)
  }

  /** What the options of a state of a complete trie are. */
  lemma EdgeFacts(words: seq<Word>, st: seq<seq<Edge>>, path: seq<Word>, s: nat, m: nat)
    requires Complete(words, st, path) && s < |st| && m < |st[s]|
    ensures st[s][m].to < |st| && st[s][m].c < 128
    ensures st[s][m].to != 0 ==> Jump(st, s, m) > 0 && Pos(st, s) + 2 * m + 2 * Jump(st, s, m) == Pos(st, st[s][m].to)
    ensures (st[s][m].to == 0) == IsTerminal(st[s])
  {
    hide HasParent, Complete, Pos;
    StateOf(words, st, path, s);
    RootText(words, st, path);
    var e := st[s][m];
    if IsTerminal(st[s]) {
      FewWords(words, st, path);
    } else {
      PosMono(st, s, e.to);
      PosEven(st, s);
      PosEven(st, e.to);
    }
  }

  lemma FewWords(words: seq<Word>, st: seq<seq<Edge>>, path: seq<Word>)
    requires Complete(words, st, path)
    ensures |words| <= 128
  {
    hide Trie;
  }

  /** The emission loop; None when a jump does not fit in a byte. */
  method Emit(ghost words: seq<Word>, st: seq<seq<Edge>>, ghost path: seq<Word>) returns (table: Option<seq<Byte>>)
    requires Complete(words, st, path)
    ensures table.Some? <==> Fits(st)
    ensures table.Some? ==> Emitted(st, table.value) && |table.value| == Pos(st, |st|)
  {
    hide Complete, Jump, OptionFits, OptionAt;
    var bytepos := Positions(st);
    var t: seq<Byte> := [];
    for n := 0 to |st|
      invariant |t| == Pos(st, n)
      invariant forall s: nat :: s < n ==> StateAt(st, t, s) && StateFits(st, s)
    {
      for m := 0 to |st[n]|
        invariant |t| == Pos(st, n) + 2 * m
        invariant forall s: nat :: s < n ==> StateAt(st, t, s) && StateFits(st, s)
        invariant forall k: nat :: k < m ==> OptionAt(st, t, n, k) && OptionFits(st, n, k)
      {
        EdgeFacts(words, st, path, n, m);
        var e := st[n][m];
        var walk, delta := |t|, 0;
        if e.to != 0 {
          delta := (bytepos[e.to] - walk) / 2;
          JumpIs(st, n, m, delta);
          if delta > 0xff {
            NotFits(st, n, m);
            return None;
          }
        }
        var y := if m == |st[n]| - 1 then e.c + 128 else e.c;
        GrowStates(st, t, [y, delta], n, m);
        t := t + [y, delta];
        JustEmitted(st, t, n, m, y, delta);
      }
    }
    table := Some(t);
  }

  /** bytepos of every state. */
  method Positions(st: seq<seq<Edge>>) returns (bytepos: seq<nat>)
    ensures |bytepos| == |st| && forall s {:trigger bytepos[s]} :: 0 <= s < |st| ==> bytepos[s] == Pos(st, s)
  {
    bytepos := [];
    var walk := 0;
    for n := 0 to |st|
      invariant |bytepos| == n && walk == Pos(st, n)
      invariant forall s {:trigger bytepos[s]} :: 0 <= s < n ==> bytepos[s] == Pos(st, s)
    {
      bytepos := bytepos + [walk];
      walk := walk + 2 * |st[n]|;
    }
  }

  lemma JumpIs(st: seq<seq<Edge>>, s: nat, m: nat, delta: int)
    requires s < |st| && m < |st[s]| && st[s][m].to < |st| && delta == (Pos(st, st[s][m].to) - (Pos(st, s) + 2 * m)) / 2
    ensures delta == Jump(st, s, m)
  {
  }

  lemma NotFits(st: seq<seq<Edge>>, s: nat, m: nat)
    requires s < |st| && m < |st[s]| && st[s][m].to < |st| && st[s][m].to != 0 && Jump(st, s, m) > 0xff
    ensures !Fits(st)
  {
    hide Jump;
    assert !OptionFits(st, s, m);
    assert !StateFits(st, s);
  }

  /** Appending to the table does not disturb what is there. */
  lemma GrowStates(st: seq<seq<Edge>>, t: seq<Byte>, more: seq<Byte>, n: nat, m: nat)
    requires n < |st| && m <= |st[n]|
    requires forall s: nat :: s < n ==> StateAt(st, t, s)
    requires forall k: nat :: k < m ==> OptionAt(st, t, n, k)
    ensures forall s: nat :: s < n ==> StateAt(st, t + more, s)
    ensures forall k: nat :: k < m ==> OptionAt(st, t + more, n, k)
  {
    hide Jump, OptionAt;
    var t' := t + more;
    forall s: nat | s < n
      ensures StateAt(st, t', s)
    {
      assert StateAt(st, t, s);
      forall k: nat | k < |st[s]|
        ensures OptionAt(st, t', s, k)
      {
        GrowOption(st, t, more, s, k);
      }
    }
    forall k: nat | k < m
      ensures OptionAt(st, t', n, k)
    {
      GrowOption(st, t, more, n, k);
    }
  }

  lemma GrowOption(st: seq<seq<Edge>>, t: seq<Byte>, more: seq<Byte>, s: nat, m: nat)
    requires s < |st| && m < |st[s]| && OptionAt(st, t, s, m)
    ensures OptionAt(st, t + more, s, m)
  {
    hide Jump, Pos;
  }

  lemma JustEmitted(st: seq<seq<Edge>>, t: seq<Byte>, n: nat, m: nat, y: Byte, delta: Byte)
    requires n < |st| && m < |st[n]| && |t| == Pos(st, n) + 2 * m + 2 && t[|t| - 2] == y && t[|t| - 1] == delta
    requires st[n][m].to < |st| && st[n][m].c < 128
    requires y == if m == |st[n]| - 1 then st[n][m].c + 128 else st[n][m].c
    requires delta == if st[n][m].to == 0 then 0 else Jump(st, n, m)
    ensures OptionAt(st, t, n, m) && OptionFits(st, n, m)
  {
    hide Jump, Pos;
  }

  // ----- decoding -----

  /** Where a character leads in the trie; a terminal keeps its place, None is a failure. */
  function Step(st: seq<seq<Edge>>, s: nat, c: nat): Option<nat>
    requires s < |st|
  {
    if IsTerminal(st[s]) then Some(s) else Find(st[s], c)
  }

  /** What an option of a complete trie is. */
  predicate SoundOption(st: seq<seq<Edge>>, s: nat, m: nat)
    requires s < |st| && m < |st[s]|
  {
    var e := st[s][m];
    && e.to < |st| && e.c < 128 && (e.to == 0) == IsTerminal(st[s])
    && (e.to != 0 ==> Jump(st, s, m) > 0 && Pos(st, s) + 2 * m + 2 * Jump(st, s, m) == Pos(st, e.to))
  }

  lemma TableOption(words: seq<Word>, st: seq<seq<Edge>>, path: seq<Word>, table: seq<Byte>, s: nat, m: nat)
    requires Complete(words, st, path) && Emitted(st, table) && s < |st| && m < |st[s]|
    ensures SoundOption(st, s, m) && OptionAt(st, table, s, m)
  {
    hide Complete, OptionAt;
    EdgeFacts(words, st, path, s, m);
    assert StateAt(st, table, s);
  }

  /** Reading the two bytes of an option. */
  lemma AtOption(st: seq<seq<Edge>>, table: seq<Byte>, s: nat, m: nat, p: nat)
    requires s < |st| && m < |st[s]| && p == Pos(st, s) + 2 * m && SoundOption(st, s, m) && OptionAt(st, table, s, m)
    ensures p + 1 < |table| && (table[p + 1] == 0 <==> IsTerminal(st[s]))
    ensures table[p] % 128 == st[s][m].c && (table[p] >= 128 <==> m == |st[s]| - 1)
    ensures table[p + 1] != 0 ==> st[s][m].to < |st| && p + 2 * (table[p + 1] as nat) == Pos(st, st[s][m].to)
  {
    hide Pos, Jump;
  }

  /** lextable_decode() at the first option of state s. */
  method LextableDecode(table: seq<Byte>, pos: nat, c: nat, ghost words: seq<Word>, ghost st: seq<seq<Edge>>,
      ghost path: seq<Word>, ghost s: nat)
    returns (r: int)
    requires Complete(words, st, path) && Emitted(st, table) && s < |st| && pos == Pos(st, s)
    ensures match Step(st, s, c)
      case Some(t) => t < |st| && r == Pos(st, t)
      case None => r == -1
  {
    hide Complete, Emitted, Pos, SoundOption, OptionAt;
    r := pos;
    NotEmpty(words, st, path, s);
    ghost var m: nat := 0;
    assert st[s][0..] == st[s];
    while true
      invariant m < |st[s]| && r == Pos(st, s) + 2 * m
      invariant m > 0 ==> !IsTerminal(st[s])
      invariant Find(st[s], c) == Find(st[s][m..], c)
      decreases |st[s]| - m
    {
      TableOption(words, st, path, table, s, m);
      AtOption(st, table, s, m, r);
      assert st[s][m..][1..] == st[s][m + 1..] && st[s][m..][0] == st[s][m];
      if table[r + 1] == 0 {
        TerminalOption(st, s, m);
        return r;
      }
      if table[r] % 128 == c { return r + 2 * (table[r + 1] as nat); }
      if table[r] >= 128 {
        assert st[s][m + 1..] == [];
        return -1;
      }
      r, m := r + 2, m + 1;
    }
  }

  lemma TerminalOption(st: seq<seq<Edge>>, s: nat, m: nat)
    requires s < |st| && IsTerminal(st[s]) && m < |st[s]|
    ensures m == 0
  {
  }

  lemma NotEmpty(words: seq<Word>, st: seq<seq<Edge>>, path: seq<Word>, s: nat)
    requires Complete(words, st, path) && s < |st|
    ensures st[s] != []
  {
    hide Complete;
    RootText(words, st, path);
    if !IsTerminal(st[s]) { var _ := OnTheWay(words, st, path, s); }
  }

  // ----- matching -----

  /** The word matched, the first character that leaves the trie, or the end of the text inside a word. */
  datatype Outcome = Matched(word: nat) | Failed(at: nat) | Inside

  /** w[..k] is a part of some word, w[..k + 1] of none. */
  ghost predicate Leaves(words: seq<Word>, w: Word, k: nat) {
    && k < |w| && (exists i :: 0 <= i < |words| && w[..k] < words[i])
    && forall i {:trigger words[i]} :: 0 <= i < |words| ==> !(w[..k + 1] <= words[i]) && !(words[i] <= w)
  }

  /** Walk the table from position 0, a character at a time, until a terminal or a failure. */
  method Match(table: seq<Byte>, w: Word, ghost words: seq<Word>, ghost st: seq<seq<Edge>>, ghost path: seq<Word>)
    returns (r: Outcome)
    requires Complete(words, st, path) && Emitted(st, table)
    ensures r.Matched? ==> r.word < |words| && words[r.word] <= w
    ensures forall i :: 0 <= i < |words| && words[i] <= w ==> r == Matched(i)
    ensures r.Failed? ==> Leaves(words, w, r.at)
    ensures r.Inside? ==> exists i :: 0 <= i < |words| && w < words[i]
  {
    hide Complete, Emitted, Pos, SoundOption, OptionAt;
    var walk := 0;
    ghost var s: nat := 0;
    RootText(words, st, path);
    RootGoesOn(words, st, path);
    assert Pos(st, 0) == 0 by { PosZero(st); }
    assert w[..0] == [];
    for m := 0 to |w|
      invariant s < |st| && walk == Pos(st, s) && path[s] == w[..m] && !IsTerminal(st[s])
    {
      ghost var i := OnTheWay(words, st, path, s);
      ghost var t := Step(st, s, w[m]);
      walk := LextableDecode(table, walk, w[m], words, st, path, s);
      StepText(words, st, path, s, w, m);
      if walk < 0 { return Failed(m); }
      s := t.value;
      NotEmpty(words, st, path, s);
      TableOption(words, st, path, table, s, 0);
      AtOption(st, table, s, 0, walk);
      if table[walk + 1] == 0 {
        TerminalWord(words, st, path, s, w);
        return Matched(table[walk] % 128);
      }
    }
    assert w[..|w|] == w;
    ghost var i := OnTheWay(words, st, path, s);
    r := Inside;
  }

  lemma PosZero(st: seq<seq<Edge>>)
    ensures Pos(st, 0) == 0
  {
  }

  lemma RootGoesOn(words: seq<Word>, st: seq<seq<Edge>>, path: seq<Word>)
    requires Complete(words, st, path)
    ensures |st| == |path| > 0 && path[0] == [] && !IsTerminal(st[0])
  {
    hide HasParent, GoodEdges;
    RootText(words, st, path);
    StateOf(words, st, path, 0);
  }

  /** One more character: on to the state of the longer text, or out of the trie. */
  lemma StepText(words: seq<Word>, st: seq<seq<Edge>>, path: seq<Word>, s: nat, w: Word, m: nat)
    requires Complete(words, st, path) && s < |st| && |path| == |st| && m < |w| && path[s] == w[..m]
      && !IsTerminal(st[s])
    ensures match Step(st, s, w[m])
      case Some(t) => t < |st| && path[t] == w[..m + 1]
      case None => Leaves(words, w, m)
  {
    hide Complete, HasParent, Find;
    StateOf(words, st, path, s);
    assert w[..m + 1] == w[..m] + [w[m]];
    var j := OnTheWay(words, st, path, s);
    if Find(st[s], w[m]).Some? {
      FindTarget(st, path, s, w[m]);
    } else {
      forall i {:trigger words[i]} | 0 <= i < |words|
        ensures !(w[..m + 1] <= words[i]) && !(words[i] <= w)
      {
        if w[..m + 1] <= words[i] || (words[i] <= w && |words[i]| > m) { NoWordGoesOn(words, st, path, s, w, m, i); }
      }
    }
  }

  /** A word that goes on with the next character would have an option for it. */
  lemma NoWordGoesOn(words: seq<Word>, st: seq<seq<Edge>>, path: seq<Word>, s: nat, w: Word, m: nat, i: nat)
    requires Complete(words, st, path) && s < |st| && |path| == |st| && m < |w| && path[s] == w[..m]
      && !IsTerminal(st[s])
    requires i < |words| && Find(st[s], w[m]).None? && (w[..m + 1] <= words[i] || (words[i] <= w && |words[i]| > m))
    ensures false
  {
    hide Complete, HasParent, Find;
    assert w[..m + 1] == w[..m] + [w[m]];
    assert words[i][m] == w[m] && words[i][..m] == w[..m];
    HasNext(words, st, path, s, i);
  }

  lemma TerminalWord(words: seq<Word>, st: seq<seq<Edge>>, path: seq<Word>, s: nat, w: Word)
    requires Complete(words, st, path) && s < |st| && |path| == |st| && path[s] <= w && IsTerminal(st[s])
    ensures var n := st[s][0].c;
      n < |words| && words[n] <= w && forall i :: 0 <= i < |words| && words[i] <= w ==> i == n
  {
    hide HasParent, GoodEdges;
    StateOf(words, st, path, s);
    var n := st[s][0].c;
    forall i | 0 <= i < |words| && words[i] <= w
      ensures i == n
    {
      assert words[i] <= words[n] || words[n] <= words[i];
    }
  }

  // ----- what the words alone decide -----

  /** The number of the word that text is. */
  function WordNumber(words: seq<Word>, text: Word, n: nat): Option<nat>
    requires n <= |words|
  {
    if n == 0 then None else if words[n - 1] == text then Some(n - 1) else WordNumber(words, text, n - 1)
  }

  /** The states, from the beginnings of words in the order they first appear. */
  function States(words: seq<Word>): seq<seq<Edge>> {
    var ps := Texts(words, |words|);
    seq(|ps|, s requires 0 <= s < |ps| =>
      var n := WordNumber(words, ps[s], |words|);
      if n.Some? then [Edge(n.value, 0)] else Options(ps, ps[s], |ps|))
  }

  lemma {:induction false} NumberFound(words: seq<Word>, text: Word, n: nat, i: nat)
    requires n <= |words| && i < n && words[i] == text
      && forall j {:trigger words[j]} :: 0 <= j < |words| && words[j] == text ==> j == i
    ensures WordNumber(words, text, n) == Some(i)
  {
    if i < n - 1 { NumberFound(words, text, n - 1, i); }
  }

  lemma {:induction false} NumberNone(words: seq<Word>, text: Word, n: nat)
    requires n <= |words| && forall j {:trigger words[j]} :: 0 <= j < |words| ==> words[j] != text
    ensures WordNumber(words, text, n) == None
  {
    if n > 0 { NumberNone(words, text, n - 1); }
  }

  /** The trie that is built is the one the words decide. */
  lemma BuiltStates(words: seq<Word>, st: seq<seq<Edge>>, path: seq<Word>)
    requires Complete(words, st, path) && path == Texts(words, |words|) && InOrder(st, path)
    ensures st == States(words)
  {
    hide Complete, GoodEdges, HasParent, Options, Texts, WordNumber;
    RootText(words, st, path);
    forall s: nat | s < |st|
      ensures st[s] == States(words)[s]
    {
      StateOf(words, st, path, s);
      if IsTerminal(st[s]) {
        OneNumber(words, st, path, st[s][0].c);
        NumberFound(words, path[s], |words|, st[s][0].c);
      } else {
        var _ := OnTheWay(words, st, path, s);
        NumberNone(words, path[s], |words|);
      }
    }
  }

  lemma OneNumber(words: seq<Word>, st: seq<seq<Edge>>, path: seq<Word>, i: nat)
    requires Complete(words, st, path) && i < |words|
    ensures forall j {:trigger words[j]} :: 0 <= j < |words| && words[j] == words[i] ==> j == i
  {
    hide Trie;
  }

  /**
    Compile the words and look one text up: the table is refused exactly when a jump between the states
    of the words does not fit in a byte; otherwise a word is reported exactly when the text starts with
    it, or the walk fails at the first character that leaves the trie, or the text ends inside a word.
   */
  method Recognize(words: seq<Word>, w: Word) returns (r: Option<Outcome>)
    requires PrefixFree(words)
    ensures r.None? <==> !Fits(States(words))
    ensures r.Some? ==> (forall i :: 0 <= i < |words| ==> (r.value == Matched(i) <==> words[i] <= w))
    ensures r.Some? && r.value.Matched? ==> r.value.word < |words|
    ensures r.Some? && r.value.Failed? ==> Leaves(words, w, r.value.at)
    ensures r.Some? && r.value.Inside? ==> exists i :: 0 <= i < |words| && w < words[i]
  {
    hide PrefixFree, Trie, Leaves, Emitted, Fits, States, Texts, InOrder;
    var st, path := Build(words);
    BuiltStates(words, st, path);
    var table := Emit(words, st, path);
    if table.None? { return None; }
    var o := Match(table.value, w, words, st, path);
    r := Some(o);
  }
}
