/** picojson's input: a cursor with one character of pushback. */
module JsonInput {
  import opened Bytes
  import opened Json

  predicate IsSpace(c: Byte) {
    c in {32, 9, 10, 13}
  }

  /** The first position from p on that is not white space. */
  function SkipSpace(s: Text, p: nat): (q: nat)
    requires p <= |s|
    ensures p <= q <= |s| && (q < |s| ==> !IsSpace(s[q]))
    decreases |s| - p
  {
    if p < |s| && IsSpace(s[p]) then SkipSpace(s, p + 1) else p
  }

  class Input {
    const s: Text
    var cur: nat
    var last: int
    var ungot: bool
    var line: nat

    /** last is the character before the cursor, or -1; only a character can be pushed back. */
    ghost predicate Valid()
      reads this
    {
      && cur <= |s| && (last != -1 ==> cur > 0 && last == s[cur - 1]) && (ungot ==> last != -1)
    }

    /** The position the next character is read from. */
    ghost function Pos(): (p: nat)
      requires Valid()
      reads this
      ensures p <= |s|
    {
      if ungot then cur - 1 else cur
    }

    constructor (s: Text)
      ensures Valid() && this.s == s && Pos() == 0 && !ungot
    {
      this.s := s;
      cur, last, ungot, line := 0, -1, false, 1;
    }

    method GetC() returns (ch: int)
      requires Valid()
      modifies this
      ensures Valid() && !ungot && last == ch
      ensures ch == if old(Pos()) < |s| then s[old(Pos())] else -1
      ensures Pos() == if old(Pos()) < |s| then old(Pos()) + 1 else old(Pos())
    {
      if ungot {
        ungot := false;
        return last;
      }
      if cur == |s| {
        last := -1;
        return -1;
      }
      if last == 10 { line := line + 1; }
      last := s[cur];
      cur := cur + 1;
      ch := last;
    }

    /**
      Pushing back twice without reading in between would fail the assertion in the code: it is a precondition
      here.
     */
    method UngetC()
      requires Valid() && (last != -1 ==> !ungot)
      modifies this
      ensures Valid() && Pos() == if last != -1 then old(Pos()) - 1 else old(Pos())
      ensures last == old(last) && ungot == (last != -1 || old(ungot))
    {
      if last != -1 { ungot := true; }
    }

    method SkipWs()
      requires Valid()
      modifies this
      ensures Valid() && Pos() == SkipSpace(s, old(Pos()))
    {
      ghost var p := Pos();
      while true
        invariant Valid() && Pos() <= |s| && SkipSpace(s, Pos()) == SkipSpace(s, p)
        decreases |s| - Pos()
      {
        var ch := GetC();
        if !(ch == 32 || ch == 9 || ch == 10 || ch == 13) {
          UngetC();
          return;
        }
      }
    }

    method Expect(c: Byte) returns (ok: bool)
      requires Valid()
      modifies this
      ensures Valid()
      ensures var p := SkipSpace(s, old(Pos())); ok == (p < |s| && s[p] == c) && Pos() == if ok then p + 1 else p
      ensures ok ==> !ungot
    {
      SkipWs();
      var ch := GetC();
      if ch != c {
        UngetC();
        return false;
      }
      ok := true;
    }

    method Match(pattern: Text) returns (ok: bool)
      requires Valid()
      modifies this
      ensures Valid() && old(Pos()) <= Pos()
      ensures ok == (pattern <= s[old(Pos())..])
      ensures ok ==> Pos() == old(Pos()) + |pattern| && (pattern != [] ==> !ungot)
    {
      ghost var p := Pos();
      for i := 0 to |pattern|
        invariant Valid() && Pos() == p + i && pattern[..i] <= s[p..] && (i > 0 ==> !ungot)
      {
        var ch := GetC();
        if ch != pattern[i] {
          UngetC();
          return false;
        }
        assert pattern[..i + 1] == pattern[..i] + [pattern[i]];
      }
      assert pattern[..|pattern|] == pattern;
      ok := true;
    }
  }
}
