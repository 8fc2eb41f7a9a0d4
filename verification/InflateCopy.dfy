/** Writing output: stored bytes, literals and matches, the latter also from the window. */
module InflateCopy {
  import opened Bits
  import opened Bytes
  import opened InflateSpec
  import opened InflateSchedule
  import opened InflateWindow
  import opened InflateState
  import InflateRun

  // ----- what several output steps amount to -----

  /** out followed by n bytes copied one at a time from offset back. */
  function MatchOut(out: seq<Byte>, offset: nat, n: nat): (r: seq<Byte>)
    requires 1 <= offset <= |out|
    ensures |r| == |out| + n && out <= r
  {
    if n == 0 then out
    else
      var r := MatchOut(out, offset, n - 1);
      r + [r[|r| - offset]]
  }

  lemma MatchOutStep(out: seq<Byte>, offset: nat, n: nat)
    requires 1 <= offset <= |out|
    ensures MatchOut(out, offset, 0) == out
    ensures n > 0 ==> MatchOut(MatchOut(out, offset, n - 1), offset, 1) == MatchOut(out, offset, n)
  {
    if n > 0 {
      var r := MatchOut(out, offset, n - 1);
      assert MatchOut(r, offset, 0) == r;
    }
  }

  /** c after n bytes of its match. */
  function AfterMatch(c: Config, n: nat): Config
    requires c.phase.Coded? && c.phase.sub.Match? && n <= c.phase.sub.length && 1 <= c.phase.sub.offset <= |c.out|
  {
    var Match(length, offset) := c.phase.sub;
    WithSub(c, if n == length then Sub.Len else Sub.Match(length - n, offset)).(out := MatchOut(c.out, offset, n))
  }

  lemma MatchStep(c: Config, w: Window)
    requires Valid(c) && c.phase.Coded? && c.phase.sub.Match?
    ensures TooFar(c, w, c.phase.sub.offset) ==> Next(c, w) == Some(c.(phase := Phase.Bad))
    ensures !TooFar(c, w, c.phase.sub.offset) ==> c.phase.sub.offset <= |c.out| && Next(c, w) == Some(AfterMatch(c, 1))
  {
    hide Pow2, Decode, Accepted;
    if !TooFar(c, w, c.phase.sub.offset) {
      assert MatchOut(c.out, c.phase.sub.offset, 0) == c.out;
    }
  }

  /** Copying n bytes of a match is n steps of the machine. */
  lemma {:induction false} MatchRun(c: Config, w: Window, limit: nat, n: nat)
    requires Valid(c) && c.phase.Coded? && c.phase.sub.Match? && !TooFar(c, w, c.phase.sub.offset)
    requires n <= c.phase.sub.length && |c.out| + n <= limit
    ensures Valid(AfterMatch(c, n)) && RunTo(c, w, limit) == RunTo(AfterMatch(c, n), w, limit)
  {
    hide Pow2, Decode, Accepted, RunTo, Next, MatchOut;
    MatchOutStep(c.out, c.phase.sub.offset, n);
    if n > 0 {
      MatchRun(c, w, limit, n - 1);
      var c1 := AfterMatch(c, n - 1);
      MatchStep(c1, w);
      RunStep(c1, w, limit);
    }
  }

  /** Copying n stored bytes is n steps of the machine. */
  lemma {:induction false} CopyRun(last: bool, left: nat, next: seq<Byte>, out: seq<Byte>, w: Window, limit: nat,
      n: nat)
    requires left <= 65535 && n <= left && n <= |next| && |out| + n <= limit
    ensures Valid(Config(last, Phase.Copy(left), Val(next), 8 * |next|, out))
    ensures Valid(Config(last, Phase.Copy(left - n), Val(next[n..]), 8 * |next[n..]|, out + next[..n]))
    ensures RunTo(Config(last, Phase.Copy(left), Val(next), 8 * |next|, out), w, limit)
      == RunTo(Config(last, Phase.Copy(left - n), Val(next[n..]), 8 * |next[n..]|, out + next[..n]), w, limit)
  {
    hide Pow2, RunTo, Next;
    if n == 0 {
      assert next[0..] == next && out + next[..0] == out;
    } else {
      var c := Config(last, Phase.Copy(left), Val(next), 8 * |next|, out);
      CopyStep(c, next, w);
      RunStep(c, w, limit);
      CopyRun(last, left - 1, next[1..], out + [next[0]], w, limit, n - 1);
      assert next[1..][n - 1..] == next[n..];
      assert out + [next[0]] + next[1..][..n - 1] == out + next[..n];
    }
  }

  lemma CopyStep(c: Config, next: seq<Byte>, w: Window)
    requires Valid(c) && c.phase.Copy? && c.phase.left > 0 && next != [] && c.v == Val(next) && c.n == 8 * |next|
    ensures Next(c, w) ==
      Some(Config(c.last, Phase.Copy(c.phase.left - 1), Val(next[1..]), 8 * |next[1..]|, c.out + [next[0]]))
  {
    hide Pow2, Lo, Hi;
    ShlEight(Val(next[1..]));
    InflateRun.Pow2Values();
    Join(Val(next[1..]), next[0], 8);
  }

  // ----- copying -----

  /** zmemcpy of stored bytes */
  method CopyStored(next: seq<Byte>, buf: array<Byte>, put: nat, n: nat)
    requires n <= |next| && put + n <= buf.Length
    modifies buf
    ensures buf[..put + n] == old(buf[..put]) + next[..n]
  {
    for i := 0 to n
      invariant buf[..put + i] == old(buf[..put]) + next[..i]
    {
      buf[put + i] := next[i];
      assert buf[..put + i + 1] == buf[..put + i] + [next[i]];
    }
  }

  /** Copy n bytes of a match from the output of this call. */
  method CopyFromOutput(ghost hist: seq<Byte>, buf: array<Byte>, put: nat, offset: nat, n: nat)
    requires 1 <= offset <= put && put + n <= buf.Length
    modifies buf
    ensures hist + buf[..put + n] == MatchOut(hist + old(buf[..put]), offset, n)
  {
    ghost var out := hist + buf[..put];
    var from := put - offset;
    for i := 0 to n
      invariant hist + buf[..put + i] == MatchOut(out, offset, i)
    {
      ghost var sofar := hist + buf[..put + i];
      assert sofar[|sofar| - offset] == buf[from + i];
      buf[put + i] := buf[from + i];
      assert hist + buf[..put + i + 1] == sofar + [buf[put + i]];
    }
  }

  /** Where a match that starts d back in the window is read, and how many bytes lie there in a row. */
  method WindowRun(win: SlidingWindow, d: nat) returns (from: nat, run: nat)
    requires win.Valid() && 1 <= d <= win.whave
    ensures 1 <= run <= d <= |win.hist| && from + run <= win.window.Length
    ensures win.window[from..from + run] == win.hist[|win.hist| - d..][..run]
  {
    if d > win.wnext {
      run := d - win.wnext;
      from := win.wsize - run;
    } else {
      run := d;
      from := win.wnext - d;
    }
    ghost var a, b := win.window[from..from + run], win.hist[|win.hist| - d..][..run];
    assert |a| == |b|;
    forall i | 0 <= i < |a|
      ensures a[i] == b[i]
    {
      assert Back(win.wsize, win.wnext, d - i) == from + i;
      assert win.window[..][from + i] == win.hist[|win.hist| - (d - i)];
    }
  }

  /** Copy n bytes of a match from a run in the window. */
  method CopyFromWindow(win: SlidingWindow, buf: array<Byte>, put: nat, offset: nat, from: nat, run: nat, n: nat)
    requires put < offset && offset - put <= |win.hist| && n <= run <= offset - put && put + n <= buf.Length
      && buf != win.window
    requires from + run <= win.window.Length
    requires win.window[from..from + run] == win.hist[|win.hist| - (offset - put)..][..run]
    modifies buf
    ensures win.hist + buf[..put + n] == MatchOut(win.hist + old(buf[..put]), offset, n)
  {
    ghost var out := win.hist + buf[..put];
    for i := 0 to n
      invariant win.hist + buf[..put + i] == MatchOut(out, offset, i)
    {
      ghost var sofar := win.hist + buf[..put + i];
      assert win.window[from..from + run][i] == win.window[from + i];
      assert sofar[|sofar| - offset] == win.window[from + i];
      buf[put + i] := win.window[from + i];
      assert win.hist + buf[..put + i + 1] == sofar + [buf[put + i]];
    }
  }

  /** Copy as much of a match as lies in a row and fits. */
  method CopyMatch(win: SlidingWindow, buf: array<Byte>, put: nat, length: nat, offset: nat) returns (copy: nat)
    requires win.Valid() && buf != win.window && put < buf.Length && 1 <= length && 1 <= offset <= put + win.whave
    modifies buf
    ensures 1 <= copy <= length && put + copy <= buf.Length && offset <= |win.hist| + put
    ensures win.hist + buf[..put + copy] == MatchOut(win.hist + old(buf[..put]), offset, copy)
  {
    hide SlidingWindow.Valid, MatchOut;
    if offset > put {
      var from, run := WindowRun(win, offset - put);
      copy := if run > length then length else run;
      if copy > buf.Length - put { copy := buf.Length - put; }
      CopyFromWindow(win, buf, put, offset, from, run, copy);
    } else {
      copy := if length > buf.Length - put then buf.Length - put else length;
      CopyFromOutput(win.hist, buf, put, offset, copy);
    }
  }
}
