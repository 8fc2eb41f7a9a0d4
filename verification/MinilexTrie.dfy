/** minilex: the trie of a set of keywords, built by walking each keyword through the states so far. */
module MinilexTrie {
  import opened Bytes

  /** An option of a state: a character and the state it leads to; a terminal has one option (keyword, 0). */
  datatype Edge = Edge(c: nat, to: nat)

  type Word = seq<nat>

  predicate IsWord(w: Word) {
    w != [] && forall i {:trigger w[i]} :: 0 <= i < |w| ==> 0 < w[i] < 128
  }

  /** Nonempty words of 7-bit characters, few enough to number in 7 bits, none a prefix of another. */
  predicate PrefixFree(words: seq<Word>) {
    && 0 < |words| <= 128 && (forall i {:trigger words[i]} :: 0 <= i < |words| ==> IsWord(words[i]))
    && (forall i, j {:trigger words[i], words[j]} :: 0 <= i < |words| && 0 <= j < |words| && words[i] <= words[j] ==>
        i == j)
  }

  predicate IsTerminal(es: seq<Edge>) {
    |es| == 1 && es[0].to == 0
  }

  /** The first option for c, as the search loop finds it. */
  function Find(es: seq<Edge>, c: nat): (t: Option<nat>)
    ensures t.Some? ==> exists y :: 0 <= y < |es| && es[y] == Edge(c, t.value)
    ensures t.None? ==> forall y {:trigger es[y]} :: 0 <= y < |es| ==> es[y].c != c
  {
    if es == [] then None
    else if es[0].c == c then
      assert es[0] == Edge(c, es[0].to);
      Some(es[0].to)
    else
      var t := Find(es[1..], c);
      assert t.Some? ==>
        exists y :: 0 <= y < |es[1..]| && es[1..][y] == Edge(c, t.value) && es[y + 1] == Edge(c, t.value);
      assert forall y {:trigger es[y]} :: 1 <= y < |es| ==> es[y] == es[1..][y - 1];
      t
  }

  lemma {:induction false} FindAppend(es: seq<Edge>, e: Edge, c: nat)
    ensures Find(es + [e], c) == if Find(es, c).Some? then Find(es, c) else if e.c == c then Some(e.to) else None
  {
    if es != [] {
      assert (es + [e])[1..] == es[1..] + [e];
      FindAppend(es[1..], e, c);
    } else {
      assert (es + [e])[1..] == [];
    }
  }

  /** path[s] is the text that leads to state s. */
  ghost predicate GoodEdges(st: seq<seq<Edge>>, path: seq<Word>, s: nat)
    requires |path| == |st| && s < |st|
  {
    IsTerminal(st[s]) ||
    forall y {:trigger st[s][y]} :: 0 <= y < |st[s]| ==>
      var e := st[s][y]; s < e.to < |st| && 0 < e.c < 128 && path[e.to] == path[s] + [e.c]
  }

  /** State t > 0 is reached from the state of its text without the last character. */
  ghost predicate HasParent(st: seq<seq<Edge>>, path: seq<Word>, t: nat)
    requires |path| == |st| && t < |st|
  {
    exists s :: 0 <= s < t && path[t] != [] && path[s] == path[t][..|path[t]| - 1]
      && !IsTerminal(st[s]) && Find(st[s], path[t][|path[t]| - 1]) == Some(t)
  }

  /** Word i ends in a terminal state. */
  ghost predicate WordEnds(words: seq<Word>, st: seq<seq<Edge>>, path: seq<Word>, i: nat)
    requires i < |words| && |path| == |st|
  {
    exists s: nat {:trigger path[s]} :: s < |st| && path[s] == words[i] && st[s] == [Edge(i, 0)]
  }

  ghost predicate GoodState(words: seq<Word>, n: nat, st: seq<seq<Edge>>, path: seq<Word>, cur: Word, s: nat)
    requires n <= |words| && |path| == |st| && s < |st|
  {
    && GoodEdges(st, path, s)
    && (s > 0 ==> HasParent(st, path, s))
    && (IsTerminal(st[s]) ==> st[s][0].c < n && path[s] == words[st[s][0].c])
    && (path[s] <= cur || exists i :: 0 <= i < n && path[s] <= words[i])
  }

  /** The trie of the first n words and of the part cur of the next. */
  ghost predicate Trie(words: seq<Word>, n: nat, st: seq<seq<Edge>>, path: seq<Word>, cur: Word) {
    && n <= |words| && |path| == |st| > 0 && path[0] == []
    && (forall s: nat :: s < |st| ==> GoodState(words, n, st, path, cur, s))
    && (forall s: nat, t: nat {:trigger path[s], path[t]} :: s < |st| && t < |st| && path[s] == path[t] ==> s == t)
    && (forall i: nat :: i < n ==> WordEnds(words, st, path, i))
  }

  // ----- one character -----

  lemma StateIs(words: seq<Word>, n: nat, st: seq<seq<Edge>>, path: seq<Word>, cur: Word, s: nat)
    requires Trie(words, n, st, path, cur) && s < |st|
    ensures GoodState(words, n, st, path, cur, s)
  {
    hide GoodState;
    assert GoodState(words, n, st, path, cur, s);
  }

  /** A state on the way to an unfinished word is no terminal: no word is a prefix of another. */
  lemma NotTerminal(words: seq<Word>, n: nat, st: seq<seq<Edge>>, path: seq<Word>, cur: Word, s: nat)
    requires PrefixFree(words) && n < |words| && Trie(words, n, st, path, cur) && s < |st| && path[s] <= words[n]
    ensures !IsTerminal(st[s])
  {
    hide GoodEdges, HasParent;
    StateIs(words, n, st, path, cur, s);
    forall k {:trigger words[k]} | 0 <= k < n
      ensures !(words[k] <= words[n])
    {
    }
  }

  lemma FindTarget(st: seq<seq<Edge>>, path: seq<Word>, s: nat, c: nat)
    requires |path| == |st| && s < |st| && GoodEdges(st, path, s) && !IsTerminal(st[s]) && Find(st[s], c).Some?
    ensures var t := Find(st[s], c).value; s < t < |st| && path[t] == path[s] + [c] && 0 < c < 128
  {
    var y :| 0 <= y < |st[s]| && st[s][y] == Edge(c, Find(st[s], c).value);
  }

  /** No state has the new text yet. */
  lemma TextIsNew(words: seq<Word>, n: nat, st: seq<seq<Edge>>, path: seq<Word>, cur: Word, walk: nat, c: nat, s: nat)
    requires Trie(words, n, st, path, cur) && walk < |st| && s < |st| && Find(st[walk], c).None?
    ensures path[s] != path[walk] + [c]
  {
    hide GoodEdges;
    StateIs(words, n, st, path, cur, s);
    var text := path[walk] + [c];
    assert text[..|text| - 1] == path[walk];
    if path[s] != [] {
      var p :| 0 <= p < s && path[p] == path[s][..|path[s]| - 1] && Find(st[p], path[s][|path[s]| - 1]) == Some(s);
      assert path[p] == path[walk] ==> p == walk;
    }
  }

  /** The states with a new option at walk and a new state at the end. */
  function Extend(st: seq<seq<Edge>>, walk: nat, c: nat): seq<seq<Edge>>
    requires walk < |st|
  {
    st[walk := st[walk] + [Edge(c, |st|)]] + [[]]
  }

  lemma ParentIs(st: seq<seq<Edge>>, path: seq<Word>, p: nat, t: nat, text: Word, c: nat)
    requires |path| == |st| && p < t < |st| && path[t] == text + [c] && path[p] == text
    requires !IsTerminal(st[p]) && Find(st[p], c) == Some(t)
    ensures HasParent(st, path, t)
  {
    assert path[t][..|path[t]| - 1] == text;
  }

  lemma ExtendEdges(st: seq<seq<Edge>>, path: seq<Word>, walk: nat, c: nat, s: nat)
    requires |path| == |st| && walk < |st| && s < |st| && 0 < c < 128 && GoodEdges(st, path, s) && !IsTerminal(st[walk])
    ensures GoodEdges(Extend(st, walk, c), path + [path[walk] + [c]], s)
  {
    var st', path' := Extend(st, walk, c), path + [path[walk] + [c]];
    if !IsTerminal(st'[s]) {
      forall y {:trigger st'[s][y]} | 0 <= y < |st'[s]|
        ensures var e := st'[s][y]; s < e.to < |st'| && 0 < e.c < 128 && path'[e.to] == path'[s] + [e.c]
      {
        if y < |st[s]| { assert st'[s][y] == st[s][y]; }
      }
    }
  }

  lemma ExtendParent(st: seq<seq<Edge>>, path: seq<Word>, walk: nat, c: nat, s: nat)
    requires |path| == |st| && walk < |st| && s < |st| && HasParent(st, path, s) && !IsTerminal(st[walk])
    ensures HasParent(Extend(st, walk, c), path + [path[walk] + [c]], s)
  {
    var x := path[s][|path[s]| - 1];
    var p :| 0 <= p < s && path[s] != [] && path[p] == path[s][..|path[s]| - 1] && !IsTerminal(st[p])
      && Find(st[p], x) == Some(s);
    FindAppend(st[walk], Edge(c, |st|), x);
    ExtendNotTerminal(st, walk, c, p);
    assert path[s] == path[p] + [x];
    ParentIs(Extend(st, walk, c), path + [path[walk] + [c]], p, s, path[p], x);
  }

  lemma ExtendNotTerminal(st: seq<seq<Edge>>, walk: nat, c: nat, p: nat)
    requires walk < |st| && p < |st| && !IsTerminal(st[p])
    ensures !IsTerminal(Extend(st, walk, c)[p])
    ensures Extend(st, walk, c)[p] == if p == walk then st[walk] + [Edge(c, |st|)] else st[p]
  {
  }

  lemma ExtendState(words: seq<Word>, n: nat, st: seq<seq<Edge>>, path: seq<Word>, cur: Word, walk: nat, c: nat, s: nat)
    requires Trie(words, n, st, path, cur) && walk < |st| && s < |st| && path[walk] == cur && 0 < c < 128
    requires !IsTerminal(st[walk]) && Find(st[walk], c).None?
    ensures GoodState(words, n, Extend(st, walk, c), path + [cur + [c]], cur + [c], s)
  {
    StateIs(words, n, st, path, cur, s);
    hide GoodEdges, HasParent;
    ExtendEdges(st, path, walk, c, s);
    if s > 0 { ExtendParent(st, path, walk, c, s); }
    if !IsTerminal(st[s]) { ExtendNotTerminal(st, walk, c, s); }
  }

  lemma ExtendTrie(words: seq<Word>, n: nat, st: seq<seq<Edge>>, path: seq<Word>, cur: Word, walk: nat, c: nat)
    requires Trie(words, n, st, path, cur) && walk < |st| && path[walk] == cur && 0 < c < 128
    requires !IsTerminal(st[walk]) && Find(st[walk], c).None?
    ensures Trie(words, n, Extend(st, walk, c), path + [cur + [c]], cur + [c])
  {
    hide GoodState, IsTerminal, Extend;
    var st', path' := Extend(st, walk, c), path + [cur + [c]];
    ExtendSize(st, walk, c);
    ExtendUnique(words, n, st, path, cur, walk, c);
    forall s: nat | s < |st'|
      ensures GoodState(words, n, st', path', cur + [c], s)
    {
      if s < |st| { ExtendState(words, n, st, path, cur, walk, c, s); }
        else { NewState(words, n, st, path, cur, walk, c); }
    }
    forall i: nat | i < n
      ensures WordEnds(words, st', path', i)
    {
      assert WordEnds(words, st, path, i);
      var s: nat :| s < |st| && path[s] == words[i] && st[s] == [Edge(i, 0)];
      KeepsEnd(st, walk, c, s, i);
      assert path'[s] == words[i];
    }
    assert path'[0] == [];
  }

  lemma ExtendSize(st: seq<seq<Edge>>, walk: nat, c: nat)
    requires walk < |st|
    ensures |Extend(st, walk, c)| == |st| + 1
  {
  }

  lemma ExtendUnique(words: seq<Word>, n: nat, st: seq<seq<Edge>>, path: seq<Word>, cur: Word, walk: nat, c: nat)
    requires Trie(words, n, st, path, cur) && walk < |st| && path[walk] == cur && Find(st[walk], c).None?
    ensures var path' := path + [cur + [c]];
      forall s: nat, u: nat {:trigger path'[s], path'[u]} ::
        s < |path'| && u < |path'| && path'[s] == path'[u] ==> s == u
  {
    hide GoodState;
    var path', t := path + [cur + [c]], |path|;
    forall s: nat, u: nat {:trigger path'[s], path'[u]} | s < |path'| && u < |path'| && path'[s] == path'[u]
      ensures s == u
    {
      if s < t { TextIsNew(words, n, st, path, cur, walk, c, s); }
      if u < t { TextIsNew(words, n, st, path, cur, walk, c, u); }
      if s < t && u < t { assert path[s] == path[u]; }
    }
  }

  lemma KeepsEnd(st: seq<seq<Edge>>, walk: nat, c: nat, s: nat, i: nat)
    requires walk < |st| && s < |st| && !IsTerminal(st[walk]) && st[s] == [Edge(i, 0)]
    ensures |Extend(st, walk, c)| > s && Extend(st, walk, c)[s] == st[s]
  {
  }

  lemma NewState(words: seq<Word>, n: nat, st: seq<seq<Edge>>, path: seq<Word>, cur: Word, walk: nat, c: nat)
    requires n <= |words| && |path| == |st| && walk < |st| && path[walk] == cur && !IsTerminal(st[walk])
      && Find(st[walk], c).None?
    ensures GoodState(words, n, Extend(st, walk, c), path + [cur + [c]], cur + [c], |st|)
  {
    var st', path', t := Extend(st, walk, c), path + [cur + [c]], |st|;
    FindAppend(st[walk], Edge(c, t), c);
    ExtendNotTerminal(st, walk, c, walk);
    ParentIs(st', path', walk, t, cur, c);
  }

  /** An option that exists leads on. */
  lemma FollowTrie(words: seq<Word>, n: nat, st: seq<seq<Edge>>, path: seq<Word>, cur: Word, c: nat)
    requires Trie(words, n, st, path, cur)
    ensures Trie(words, n, st, path, cur + [c])
  {
    hide GoodEdges, HasParent;
    var cur' := cur + [c];
    forall s: nat | s < |st|
      ensures GoodState(words, n, st, path, cur', s)
    {
      StateIs(words, n, st, path, cur, s);
    }
  }

  // ----- the end of a word -----

  /** An option after a whole word would make it a prefix of another. */
  lemma NoOption(words: seq<Word>, n: nat, st: seq<seq<Edge>>, path: seq<Word>, walk: nat)
    requires PrefixFree(words) && n < |words| && Trie(words, n, st, path, words[n]) && walk < |st|
      && path[walk] == words[n]
    requires !IsTerminal(st[walk]) && st[walk] != []
    ensures false
  {
    hide HasParent;
    StateIs(words, n, st, path, words[n], walk);
    var e := st[walk][0];
    StateIs(words, n, st, path, words[n], e.to);
    assert path[e.to] == words[n] + [e.c];
    var i :| 0 <= i < n && path[e.to] <= words[i];
    assert words[n] <= words[i];
  }

  /** The state of a whole word has no options yet. */
  lemma WordIsLeaf(words: seq<Word>, n: nat, st: seq<seq<Edge>>, path: seq<Word>, walk: nat)
    requires PrefixFree(words) && n < |words| && Trie(words, n, st, path, words[n]) && walk < |st|
      && path[walk] == words[n]
    ensures st[walk] == []
  {
    hide Trie, PrefixFree;
    NotTerminal(words, n, st, path, words[n], walk);
    if st[walk] != [] { NoOption(words, n, st, path, walk); }
  }

  lemma FinishState(words: seq<Word>, n: nat, st: seq<seq<Edge>>, path: seq<Word>, walk: nat, s: nat)
    requires PrefixFree(words) && n < |words| && Trie(words, n, st, path, words[n]) && walk < |st|
      && path[walk] == words[n] && st[walk] == []
    requires s < |st|
    ensures GoodState(words, n + 1, st[walk := [Edge(n, 0)]], path, [], s)
  {
    StateIs(words, n, st, path, words[n], s);
    var st' := st[walk := [Edge(n, 0)]];
    assert GoodEdges(st', path, s);
    if s > 0 {
      var x := path[s][|path[s]| - 1];
      var p :| 0 <= p < s && path[s] != [] && path[p] == path[s][..|path[s]| - 1] && !IsTerminal(st[p])
        && Find(st[p], x) == Some(s);
      assert p != walk;
      assert path[s] == path[p] + [x];
      ParentIs(st', path, p, s, path[p], x);
    }
  }

  /** Marking the end of a word. */
  lemma FinishTrie(words: seq<Word>, n: nat, st: seq<seq<Edge>>, path: seq<Word>, walk: nat)
    requires PrefixFree(words) && n < |words| && Trie(words, n, st, path, words[n]) && walk < |st|
      && path[walk] == words[n]
    ensures Trie(words, n + 1, st[walk := [Edge(n, 0)]], path, [])
  {
    hide GoodState, PrefixFree;
    WordIsLeaf(words, n, st, path, walk);
    var st', n' := st[walk := [Edge(n, 0)]], n + 1;
    forall s: nat | s < |st'|
      ensures GoodState(words, n', st', path, [], s)
    {
      FinishState(words, n, st, path, walk, s);
    }
    forall i: nat | i < n'
      ensures WordEnds(words, st', path, i)
    {
      if i == n {
        assert path[walk] == words[n];
      } else {
        assert WordEnds(words, st, path, i);
        var s: nat :| s < |st| && path[s] == words[i] && st[s] == [Edge(i, 0)];
        assert s != walk;
        assert path[s] == words[i];
      }
    }
  }

  // ----- the order of states and options -----

  function AddText(ps: seq<Word>, text: Word): seq<Word> {
    if text in ps then ps else ps + [text]
  }

  /** With the first m beginnings of w. */
  function AddWord(ps: seq<Word>, w: Word, m: nat): seq<Word>
    requires m <= |w|
  {
    if m == 0 then ps else AddText(AddWord(ps, w, m - 1), w[..m])
  }

  /** All beginnings of the first n words, in the order they first appear. */
  function Texts(words: seq<Word>, n: nat): seq<Word>
    requires n <= |words|
  {
    if n == 0 then [[]] else AddWord(Texts(words, n - 1), words[n - 1], |words[n - 1]|)
  }

  /** t is one character longer than text. */
  predicate Continues(t: Word, text: Word) {
    t != [] && t[..|t| - 1] == text
  }

  /** The options of a text, among the first k: one for each longer text, in order. */
  function Options(ps: seq<Word>, text: Word, k: nat): seq<Edge>
    requires k <= |ps|
  {
    if k == 0 then []
    else if Continues(ps[k - 1], text) then Options(ps, text, k - 1) + [Edge(ps[k - 1][|ps[k - 1]| - 1], k - 1)]
    else Options(ps, text, k - 1)
  }

  ghost predicate InOrder(st: seq<seq<Edge>>, path: seq<Word>) {
    && |path| == |st|
    && forall s: nat {:trigger st[s]} :: s < |st| && !IsTerminal(st[s]) ==> st[s] == Options(path, path[s], |path|)
  }

  lemma {:induction false} OptionsKept(ps: seq<Word>, more: seq<Word>, text: Word, k: nat)
    requires k <= |ps|
    ensures Options(ps + more, text, k) == Options(ps, text, k)
  {
    if k > 0 { OptionsKept(ps, more, text, k - 1); }
  }

  lemma {:induction false} NoOptions(ps: seq<Word>, text: Word, k: nat)
    requires k <= |ps| && forall t {:trigger ps[t]} :: 0 <= t < k ==> !Continues(ps[t], text)
    ensures Options(ps, text, k) == []
  {
    if k > 0 { NoOptions(ps, text, k - 1); }
  }

  lemma ExtendOptions(path: seq<Word>, cur: Word, c: nat, text: Word)
    ensures var path' := path + [cur + [c]];
      Options(path', text, |path'|) == Options(path, text, |path|) + if text == cur then [Edge(c, |path|)] else []
  {
    OptionsKept(path, [cur + [c]], text, |path|);
    assert (cur + [c])[..|cur|] == cur;
  }

  /** No text continues one that is new. */
  lemma NoneContinues(words: seq<Word>, n: nat, st: seq<seq<Edge>>, path: seq<Word>, cur: Word, walk: nat, c: nat,
      t: nat)
    requires Trie(words, n, st, path, cur) && walk < |st| && t < |st| && path[walk] == cur && Find(st[walk], c).None?
    ensures !Continues(path[t], cur + [c])
  {
    hide GoodEdges, Find;
    StateIs(words, n, st, path, cur, t);
    if Continues(path[t], cur + [c]) {
      var p :| 0 <= p < t && path[p] == path[t][..|path[t]| - 1];
      TextIsNew(words, n, st, path, cur, walk, c, p);
    }
  }

  lemma ExtendInOrder(words: seq<Word>, n: nat, st: seq<seq<Edge>>, path: seq<Word>, cur: Word, walk: nat, c: nat)
    requires Trie(words, n, st, path, cur) && InOrder(st, path) && walk < |st| && path[walk] == cur
    requires !IsTerminal(st[walk]) && Find(st[walk], c).None?
    ensures InOrder(Extend(st, walk, c), path + [cur + [c]])
    ensures AddText(path, cur + [c]) == path + [cur + [c]]
  {
    hide GoodState, IsTerminal, Find, Options;
    var st', path' := Extend(st, walk, c), path + [cur + [c]];
    forall t: nat {:trigger path[t]} | t < |st|
      ensures path[t] != cur + [c] && !Continues(path[t], cur + [c])
    {
      TextIsNew(words, n, st, path, cur, walk, c, t);
      NoneContinues(words, n, st, path, cur, walk, c, t);
    }
    forall s: nat {:trigger st'[s]} | s < |st'| && !IsTerminal(st'[s])
      ensures st'[s] == Options(path', path'[s], |path'|)
    {
      ExtendOptions(path, cur, c, path'[s]);
      if s == |st| {
        NoOptions(path, cur + [c], |path|);
      } else if s != walk {
        assert path[s] != path[walk];
        assert st'[s] == st[s];
      }
    }
  }

  lemma FinishInOrder(st: seq<seq<Edge>>, path: seq<Word>, walk: nat, n: nat)
    requires InOrder(st, path) && walk < |st|
    ensures InOrder(st[walk := [Edge(n, 0)]], path)
  {
    hide Options;
  }

  /** An option that exists belongs to a text that is known. */
  lemma KnownText(ps: seq<Word>, t: nat)
    requires t < |ps|
    ensures AddText(ps, ps[t]) == ps
  {
  }

  // ----- building -----

  /** The search for an option of a state. */
  method Search(es: seq<Edge>, c: nat) returns (found: Option<nat>)
    ensures found == Find(es, c)
  {
    for y := 0 to |es|
      invariant Find(es, c) == Find(es[y..], c)
    {
      if es[y].c == c { return Some(es[y].to); }
      assert es[y..][1..] == es[y + 1..];
    }
    assert es[|es|..] == [];
    found := None;
  }

  /** The states of all the words. */
  method Build(words: seq<Word>) returns (st: seq<seq<Edge>>, ghost path: seq<Word>)
    requires PrefixFree(words)
    ensures Trie(words, |words|, st, path, [])
    ensures path == Texts(words, |words|) && InOrder(st, path)
    ensures Trie(words, |words|, st, Texts(words, |words|), []) && InOrder(st, Texts(words, |words|))
  {
    hide Trie, InOrder, AddText;
    st, path := [[]], [[]];
    EmptyTrie(words);
    for n := 0 to |words|
      invariant Trie(words, n, st, path, []) && path == Texts(words, n) && InOrder(st, path)
    {
      var walk := 0;
      RootPath(words, n, st, path, []);
      assert words[n][..0] == [];
      for m := 0 to |words[n]|
        invariant Trie(words, n, st, path, words[n][..m]) && |path| == |st| && 0 <= walk < |st|
          && path[walk] == words[n][..m]
        invariant path == AddWord(Texts(words, n), words[n], m) && InOrder(st, path)
      {
        var c := words[n][m];
        var found := Search(st[walk], c);
        ghost var walk0 := walk;
        NextChar(words, n, st, path, walk, m);
        if found.Some? {
          walk := found.value;
          KnownText(path, walk);
        } else {
          NextInOrder(words, n, st, path, walk, m);
          path := path + [words[n][..m + 1]];
          st := st[walk := st[walk] + [Edge(c, |st|)]] + [[]];
          walk := |st| - 1;
        }
      }
      assert words[n][..|words[n]|] == words[n];
      FinishTrie(words, n, st, path, walk);
      FinishInOrder(st, path, walk, n);
      st := st[walk := [Edge(n, 0)]];
    }
  }

  lemma EmptyTrie(words: seq<Word>)
    ensures Trie(words, 0, [[]], [[]], []) && InOrder([[]], [[]])
  {
  }

  lemma RootPath(words: seq<Word>, n: nat, st: seq<seq<Edge>>, path: seq<Word>, cur: Word)
    requires Trie(words, n, st, path, cur)
    ensures |path| == |st| > 0 && path[0] == []
  {
    hide GoodState;
  }

  /** One character further, by an option that exists or by a new one. */
  lemma NextChar(words: seq<Word>, n: nat, st: seq<seq<Edge>>, path: seq<Word>, walk: nat, m: nat)
    requires PrefixFree(words) && n < |words| && m < |words[n]|
    requires Trie(words, n, st, path, words[n][..m]) && |path| == |st| && walk < |st| && path[walk] == words[n][..m]
    ensures var c := words[n][m];
      match Find(st[walk], c)
      case Some(t) => t < |st| && path[t] == words[n][..m + 1] && Trie(words, n, st, path, words[n][..m + 1])
      case None => Trie(words, n, Extend(st, walk, c), path + [words[n][..m + 1]], words[n][..m + 1])
  {
    hide Trie, GoodEdges, HasParent, Extend;
    var cur, c := words[n][..m], words[n][m];
    assert words[n][..m + 1] == cur + [c];
    assert IsWord(words[n]);
    NotTerminal(words, n, st, path, cur, walk);
    StateIs(words, n, st, path, cur, walk);
    if Find(st[walk], c).Some? {
      FindTarget(st, path, walk, c);
      FollowTrie(words, n, st, path, cur, c);
    } else {
      ExtendTrie(words, n, st, path, cur, walk, c);
    }
  }

  lemma NextInOrder(words: seq<Word>, n: nat, st: seq<seq<Edge>>, path: seq<Word>, walk: nat, m: nat)
    requires PrefixFree(words) && n < |words| && m < |words[n]| && InOrder(st, path)
    requires Trie(words, n, st, path, words[n][..m]) && |path| == |st| && walk < |st| && path[walk] == words[n][..m]
    requires Find(st[walk], words[n][m]).None?
    ensures InOrder(Extend(st, walk, words[n][m]), path + [words[n][..m + 1]])
    ensures AddText(path, words[n][..m + 1]) == path + [words[n][..m + 1]]
  {
    hide Trie, InOrder, Extend, AddText, Find;
    assert words[n][..m + 1] == words[n][..m] + [words[n][m]];
    NotTerminal(words, n, st, path, words[n][..m], walk);
    ExtendInOrder(words, n, st, path, words[n][..m], walk, words[n][m]);
  }
}
