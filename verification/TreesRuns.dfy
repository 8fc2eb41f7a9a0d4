/** How trees.c writes code lengths: runs of equal lengths, cut where their counts end. */
module TreesRuns {
  import opened Bytes
  import opened Canonical
  import opened DeflateEncode

  /** max_count, after a run of length prev, for a run of length cur. */
  function MaxCount(prev: int, cur: nat): nat {
    if cur == 0 then 138 else if prev == cur then 6 else 7
  }

  function MinCount(prev: int, cur: nat): nat {
    if cur == 0 then 3 else if prev == cur then 3 else 4
  }

  /** What is sent for count lengths cur after a run of length prev. */
  function Flushed(prev: int, cur: nat, count: nat): seq<Run> {
    if count < MinCount(prev, cur) then Repeat(One(cur), count)
    else if cur != 0 then (if cur != prev then [One(cur), Again(count - 1)] else [Again(count)])
    else if count <= 10 then [FewZeros(count)]
    else [ManyZeros(count)]
  }

  /** Whether the run goes on after the n-th length. */
  predicate GoesOn(lens: seq<nat>, n: nat, prev: int, count: nat)
    requires n < |lens|
  {
    count < MaxCount(prev, lens[n]) && n + 1 < |lens| && lens[n + 1] == lens[n]
  }

  /** The runs from the n-th length on, with count lengths like it waiting. */
  function RunsFrom(lens: seq<nat>, n: nat, prev: int, count: nat): seq<Run>
    requires n <= |lens|
    decreases |lens| - n
  {
    if n == |lens| then []
    else if GoesOn(lens, n, prev, count + 1) then RunsFrom(lens, n + 1, prev, count + 1)
    else Flushed(prev, lens[n], count + 1) + RunsFrom(lens, n + 1, lens[n], 0)
  }

  function TreeRuns(lens: seq<nat>): seq<Run> {
    RunsFrom(lens, 0, -1, 0)
  }

  // ----- the runs give the lengths back -----

  lemma {:induction false} ExtendAllAppend(ls: seq<nat>, a: seq<Run>, b: seq<Run>)
    ensures ExtendAll(ls, a + b) == ExtendAll(ExtendAll(ls, a), b)
    decreases a
  {
    hide Extend;
    if a == [] {
      assert a + b == b;
    } else {
      assert (a + b)[1..] == a[1..] + b;
      ExtendAllAppend(Extend(ls, a[0]), a[1..], b);
    }
  }

  /** The run before ended in prev, if there was one. */
  predicate After(ls: seq<nat>, prev: int) {
    prev == -1 || (ls != [] && ls[|ls| - 1] == prev)
  }

  lemma {:induction false} RepeatOnes(ls: seq<nat>, cur: nat, k: nat)
    ensures ExtendAll(ls, Repeat(One(cur), k)) == ls + Repeat(cur, k)
    decreases k
  {
    if k == 0 {
      assert ls + Repeat(cur, 0) == ls;
    } else {
      assert Repeat(One(cur), k)[1..] == Repeat(One(cur), k - 1);
      RepeatOnes(ls + [cur], cur, k - 1);
      assert [cur] + Repeat(cur, k - 1) == Repeat(cur, k);
      assert ls + [cur] + Repeat(cur, k - 1) == ls + ([cur] + Repeat(cur, k - 1));
    }
  }

  lemma OneRun(ls: seq<nat>, r: Run)
    ensures ExtendAll(ls, [r]) == Extend(ls, r)
  {
    assert [r][1..] == [];
  }

  lemma TwoRuns(ls: seq<nat>, q: Run, r: Run)
    ensures ExtendAll(ls, [q, r]) == Extend(Extend(ls, q), r)
  {
    assert [q, r][1..] == [r];
    OneRun(Extend(ls, q), r);
  }

  lemma FlushedGives(ls: seq<nat>, prev: int, cur: nat, count: nat)
    requires After(ls, prev) && 1 <= count <= MaxCount(prev, cur)
    ensures ExtendAll(ls, Flushed(prev, cur, count)) == ls + Repeat(cur, count)
  {
    if count < MinCount(prev, cur) {
      RepeatOnes(ls, cur, count);
    } else if cur != 0 && cur != prev {
      TwoRuns(ls, One(cur), Again(count - 1));
      assert [cur] + Repeat(cur, count - 1) == Repeat(cur, count);
      assert ls + [cur] + Repeat(cur, count - 1) == ls + ([cur] + Repeat(cur, count - 1));
    } else {
      OneRun(ls, Flushed(prev, cur, count)[0]);
    }
  }

  /** The lengths waiting are like the next one. */
  predicate Waiting(lens: seq<nat>, n: nat, prev: int, count: nat) {
    n <= |lens| && (count > 0 ==> n < |lens| && count < MaxCount(prev, lens[n]))
  }

  /** Reading the runs back gives the lengths. */
  lemma {:induction false} RunsGive(ls: seq<nat>, lens: seq<nat>, n: nat, prev: int, count: nat)
    requires Waiting(lens, n, prev, count) && After(ls, prev)
    ensures ExtendAll(ls, RunsFrom(lens, n, prev, count)) ==
      ls + (if count == 0 then [] else Repeat(lens[n], count)) + lens[n..]
    decreases |lens| - n
  {
    hide Flushed, Extend;
    if n == |lens| {
      assert ls + [] + lens[n..] == ls;
    } else if GoesOn(lens, n, prev, count + 1) {
      RunsGive(ls, lens, n + 1, prev, count + 1);
      assert Repeat(lens[n], count + 1) + lens[n + 1..] == Repeat(lens[n], count) + lens[n..];
      Regroup(ls, lens[n], count, lens[n..], lens[n + 1..]);
    } else {
      var fl, rest := Flushed(prev, lens[n], count + 1), RunsFrom(lens, n + 1, lens[n], 0);
      FlushedGives(ls, prev, lens[n], count + 1);
      ExtendAllAppend(ls, fl, rest);
      var ls1 := ls + Repeat(lens[n], count + 1);
      RunsGive(ls1, lens, n + 1, lens[n], 0);
      assert ls1 + [] + lens[n + 1..] == ls1 + lens[n + 1..];
      Regroup(ls, lens[n], count, lens[n..], lens[n + 1..]);
    }
  }

  lemma Regroup(ls: seq<nat>, x: nat, count: nat, a: seq<nat>, b: seq<nat>)
    requires a == [x] + b
    ensures ls + Repeat(x, count + 1) + b == ls + (if count == 0 then [] else Repeat(x, count)) + a
  {
    assert Repeat(x, count + 1) == Repeat(x, count) + [x];
    assert Repeat(x, count) == if count == 0 then [] else Repeat(x, count);
  }

  /** The lengths that the runs of a tree stand for are those of the tree. */
  lemma TreeRunsGive(ls: seq<nat>, lens: seq<nat>)
    ensures ExtendAll(ls, TreeRuns(lens)) == ls + lens
  {
    RunsGive(ls, lens, 0, -1, 0);
    assert ls + [] + lens[0..] == ls + lens;
  }

  // ----- the runs can be written -----

  /** The code length code has a word for every symbol that the runs need. */
  predicate HasWords(code: seq<nat>, rs: seq<Run>) {
    forall i {:trigger rs[i]} :: 0 <= i < |rs| ==> IsSymbol(code, RunSymbol(rs[i]))
  }

  lemma {:induction false} RunsAppend(code: seq<nat>, ls: seq<nat>, a: seq<Run>, b: seq<Run>)
    requires Runs(code, ls, a) && Runs(code, ExtendAll(ls, a), b)
    ensures Runs(code, ls, a + b)
    ensures RunsStream(code, ls, a + b) == Then(RunsStream(code, ls, a), RunsStream(code, ExtendAll(ls, a), b))
    decreases a
  {
    hide Extend, Then, RunStream;
    if a == [] {
      assert a + b == b;
      ThenNothing(RunsStream(code, ls, b));
    } else {
      assert (a + b)[1..] == a[1..] + b;
      var ls1 := Extend(ls, a[0]);
      RunsAppend(code, ls1, a[1..], b);
      ThenThen(RunStream(code, a[0]), RunsStream(code, ls1, a[1..]), RunsStream(code, ExtendAll(ls1, a[1..]), b));
    }
  }

  lemma OneIsRuns(code: seq<nat>, ls: seq<nat>, r: Run)
    requires IsRun(r) && IsSymbol(code, RunSymbol(r)) && (r.Again? ==> ls != [])
    ensures Runs(code, ls, [r]) && RunsStream(code, ls, [r]) == RunStream(code, r)
  {
    hide Extend, Then;
    assert [r][1..] == [];
    assert Runs(code, Extend(ls, r), []);
    ThenNothing(RunStream(code, r));
  }

  lemma {:induction false} OnesAreRuns(code: seq<nat>, ls: seq<nat>, cur: nat, k: nat)
    requires cur <= 15 && (k > 0 ==> IsSymbol(code, cur))
    ensures Runs(code, ls, Repeat(One(cur), k))
    decreases k
  {
    if k > 0 {
      assert Repeat(One(cur), k)[1..] == Repeat(One(cur), k - 1);
      OnesAreRuns(code, ls + [cur], cur, k - 1);
    }
  }

  lemma FlushedAreRuns(code: seq<nat>, ls: seq<nat>, prev: int, cur: nat, count: nat)
    requires After(ls, prev) && 1 <= count <= MaxCount(prev, cur) && cur <= 15
      && HasWords(code, Flushed(prev, cur, count))
    ensures Runs(code, ls, Flushed(prev, cur, count))
  {
    var fl := Flushed(prev, cur, count);
    assert IsSymbol(code, RunSymbol(fl[0]));
    if count < MinCount(prev, cur) {
      OnesAreRuns(code, ls, cur, count);
    } else if cur != 0 && cur != prev {
      assert IsSymbol(code, RunSymbol(fl[1]));
      assert fl[1..] == [Again(count - 1)];
      OneIsRuns(code, ls + [cur], Again(count - 1));
    } else {
      OneIsRuns(code, ls, fl[0]);
    }
  }

  lemma {:induction false} FromAreRuns(code: seq<nat>, ls: seq<nat>, lens: seq<nat>, n: nat, prev: int, count: nat)
    requires Waiting(lens, n, prev, count) && After(ls, prev) && HasWords(code, RunsFrom(lens, n, prev, count))
    requires forall i {:trigger lens[i]} :: 0 <= i < |lens| ==> lens[i] <= 15
    ensures Runs(code, ls, RunsFrom(lens, n, prev, count))
    decreases |lens| - n
  {
    hide Flushed, Extend, Runs;
    if n == |lens| {
      NoRuns(code, ls);
    } else if GoesOn(lens, n, prev, count + 1) {
      FromAreRuns(code, ls, lens, n + 1, prev, count + 1);
    } else {
      var fl, rest := Flushed(prev, lens[n], count + 1), RunsFrom(lens, n + 1, lens[n], 0);
      WordsSplit(code, fl, rest);
      FlushedAreRuns(code, ls, prev, lens[n], count + 1);
      FlushedGives(ls, prev, lens[n], count + 1);
      FromAreRuns(code, ls + Repeat(lens[n], count + 1), lens, n + 1, lens[n], 0);
      RunsAppend(code, ls, fl, rest);
    }
  }

  lemma NoRuns(code: seq<nat>, ls: seq<nat>)
    ensures Runs(code, ls, []) && RunsStream(code, ls, []) == NOTHING
  {
  }

  lemma WordsSplit(code: seq<nat>, a: seq<Run>, b: seq<Run>)
    ensures HasWords(code, a + b) <==> HasWords(code, a) && HasWords(code, b)
  {
    if HasWords(code, a + b) {
      forall i {:trigger a[i]} | 0 <= i < |a|
        ensures IsSymbol(code, RunSymbol(a[i]))
      {
        assert (a + b)[i] == a[i];
      }
      forall i {:trigger b[i]} | 0 <= i < |b|
        ensures IsSymbol(code, RunSymbol(b[i]))
      {
        assert (a + b)[|a| + i] == b[i];
      }
    }
  }

  /** The runs of a tree can be written after any lengths. */
  lemma TreeAreRuns(code: seq<nat>, ls: seq<nat>, lens: seq<nat>)
    requires HasWords(code, TreeRuns(lens)) && forall i {:trigger lens[i]} :: 0 <= i < |lens| ==> lens[i] <= 15
    ensures Runs(code, ls, TreeRuns(lens))
  {
    FromAreRuns(code, ls, lens, 0, -1, 0);
  }
}
