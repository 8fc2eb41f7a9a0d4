/** The circular window that carries the last output of earlier calls into the next one. */
module InflateWindow {
  import opened Bits
  import opened Bytes
  import opened InflateSpec

  function Min(a: nat, b: nat): nat {
    if a < b then a else b
  }

  /** Index in a circular buffer of `size`, next write at `next`, of the byte written j writes ago. */
  function Back(size: nat, next: nat, j: nat): int {
    if j <= next then next - j else size + next - j
  }

  /** data holds the last have bytes of hist, the newest just before next. */
  ghost predicate Holds(data: seq<Byte>, size: nat, have: nat, next: nat, hist: seq<Byte>) {
    && 0 < size == |data| && have <= size && have <= |hist| && next < size
    && (have < size ==> next == have)
    && forall j {:trigger Back(size, next, j)} :: 1 <= j <= have ==> data[Back(size, next, j)] == hist[|hist| - j]
  }

  lemma HoldsFacts(data: seq<Byte>, size: nat, have: nat, next: nat, hist: seq<Byte>)
    requires Holds(data, size, have, next, hist)
    ensures 0 < size == |data| && have <= size && have <= |hist| && next < size && (have < size ==> next == have)
  {
  }

  /** The call wrote at least a window full. */
  lemma HoldsRefilled(data: seq<Byte>, size: nat, hist: seq<Byte>, more: seq<Byte>)
    requires 0 < size == |data| && size <= |more| && data == more[|more| - size..]
    ensures Holds(data, size, size, 0, hist + more)
  {
    forall j {:trigger Back(size, 0, j)} | 1 <= j <= size
      ensures data[Back(size, 0, j)] == (hist + more)[|hist + more| - j]
    {
    }
  }

  /** The new bytes go past the end of the buffer and wrap around. */
  lemma HoldsWrapped(data: seq<Byte>, size: nat, have: nat, next: nat, hist: seq<Byte>, more: seq<Byte>,
      data': seq<Byte>)
    requires Holds(data, size, have, next, hist) && size - next < |more| < size
    requires var d := size - next; data' == more[d..] + data[|more| - d..next] + more[..d]
    ensures Holds(data', size, size, |more| - (size - next), hist + more)
  {
    var next' := |more| - (size - next);
    forall j {:trigger Back(size, next', j)} | 1 <= j <= size
      ensures data'[Back(size, next', j)] == (hist + more)[|hist + more| - j]
    {
      if j > |more| {
        assert data[Back(size, next, j - |more|)] == hist[|hist| - (j - |more|)];
      }
    }
  }

  /** The new bytes fit before the end of the buffer. */
  lemma HoldsAppended(data: seq<Byte>, size: nat, have: nat, next: nat, hist: seq<Byte>, more: seq<Byte>,
      data': seq<Byte>)
    requires Holds(data, size, have, next, hist) && |more| <= size - next && |more| < size
    requires data' == data[..next] + more + data[next + |more|..]
    ensures Holds(data', size, if have < size then have + |more| else have,
                  if next + |more| == size then 0 else next + |more|, hist + more)
  {
    var have', next' := if have < size then have + |more| else have, if next + |more| == size then 0 else next + |more|;
    forall j {:trigger Back(size, next', j)} | 1 <= j <= have'
      ensures data'[Back(size, next', j)] == (hist + more)[|hist + more| - j]
    {
      if j > |more| {
        assert data[Back(size, next, j - |more|)] == hist[|hist| - (j - |more|)];
      }
    }
  }

  lemma TwoCopies(data: seq<Byte>, data1: seq<Byte>, data2: seq<Byte>, more: seq<Byte>, next: nat, d: nat)
    requires next + d == |data| && d <= |more| < |data|
    requires data1 == data[..next] + more[..d] + data[next + d..]
    requires data2 == data1[..0] + more[d..] + data1[|more| - d..]
    ensures data2 == more[d..] + data[|more| - d..next] + more[..d]
  {
  }

  /** The two copies of a wrap-around. */
  lemma Wrapped(data: seq<Byte>, data1: seq<Byte>, data2: seq<Byte>, o: seq<Byte>, size: nat, have: nat, next: nat,
      hist: seq<Byte>, put: nat)
    requires Holds(data, size, have, next, hist) && next < size && size - next < put < size && put <= |o|
    requires data1 == data[..next] + o[0..size - next] + data[size..]
    requires data2 == data1[..0] + o[size - next..put] + data1[put - (size - next)..]
    ensures Holds(data2, size, size, put - (size - next), hist + o[..put])
  {
    hide Holds;
    HoldsFacts(data, size, have, next, hist);
    var d, more := size - next, o[..put];
    assert o[0..d] == more[..d] && o[d..put] == more[d..];
    TwoCopies(data, data1, data2, more, next, d);
    HoldsWrapped(data, size, have, next, hist, more, data2);
  }

  class SlidingWindow {
    const wbits: nat
    const window: array<Byte>
    var wsize: nat
    var whave: nat
    var wnext: nat
    ghost var hist: seq<Byte>

    /** Before its first use the window is empty and so is the history. */
    ghost predicate Valid()
      reads this, window
    {
      && window.Length == Pow2(wbits)
      && (wsize == 0 ==> whave == 0 && hist == [])
      && (wsize != 0 ==> Holds(window[..], wsize, whave, wnext, hist))
      && whave == Min(|hist|, Pow2(wbits))
    }

    constructor (wbits: nat)
      ensures Valid() && this.wbits == wbits && hist == [] && fresh(window)
    {
      this.wbits := wbits;
      window := new Byte[Pow2(wbits)];
      wsize, whave, wnext, hist := 0, 0, 0, [];
    }

    /** updatewindow: append the bytes written by a call, out[..put], to the history. */
    method Update(out: array<Byte>, put: nat)
      requires Valid() && put <= out.Length && out != window
      modifies this`wsize, this`whave, this`wnext, this`hist, window
      ensures Valid() && hist == old(hist) + out[..put]
    {
      if wsize == 0 {
        wsize, wnext, whave := Pow2(wbits), 0, 0;
      }
      assert Holds(window[..], wsize, whave, wnext, hist);
      hide Holds, Pow2;
      HoldsFacts(window[..], wsize, whave, wnext, hist);
      if put >= wsize {
        Refill(out, put);
      } else if put > wsize - wnext {
        WrapAround(out, put);
      } else {
        Append(out, put);
      }
      hist := hist + out[..put];
    }

    method Refill(out: array<Byte>, put: nat)
      requires 0 < wsize == window.Length <= put <= out.Length && out != window
      modifies this`whave, this`wnext, window
      ensures whave == wsize && Holds(window[..], wsize, whave, wnext, hist + out[..put])
    {
      Copy(out, put - wsize, 0, wsize);
      wnext, whave := 0, wsize;
      assert window[..] == out[..put][put - wsize..];
      HoldsRefilled(window[..], wsize, hist, out[..put]);
    }

    method WrapAround(out: array<Byte>, put: nat)
      requires Holds(window[..], wsize, whave, wnext, hist) && put <= out.Length && out != window
      requires wsize - wnext < put < wsize
      modifies this`whave, this`wnext, window
      ensures whave == wsize && Holds(window[..], wsize, whave, wnext, hist + out[..put])
    {
      hide Holds;
      HoldsFacts(window[..], wsize, whave, wnext, hist);
      ghost var data0, have0, next0, o := window[..], whave, wnext, out[..];
      var dist := wsize - wnext;
      Copy(out, 0, wnext, dist);
      var copy := put - dist;
      ghost var data1 := window[..];
      Copy(out, put - copy, 0, copy);
      wnext, whave := copy, wsize;
      Wrapped(data0, data1, window[..], o, wsize, have0, next0, hist, put);
    }

    method Append(out: array<Byte>, put: nat)
      requires Holds(window[..], wsize, whave, wnext, hist) && put <= out.Length && out != window
      requires put <= wsize - wnext && put < wsize
      modifies this`whave, this`wnext, window
      ensures whave == (if old(whave) < wsize then old(whave) + put else wsize)
      ensures Holds(window[..], wsize, whave, wnext, hist + out[..put])
    {
      ghost var data0, have0, next0, more := window[..], whave, wnext, out[..put];
      Copy(out, 0, wnext, put);
      wnext := wnext + put;
      if wnext == wsize { wnext := 0; }
      if whave < wsize { whave := whave + put; }
      assert window[..] == data0[..next0] + more + data0[next0 + put..];
      HoldsAppended(data0, wsize, have0, next0, hist, more, window[..]);
    }

    /** zmemcpy into the window. */
    method Copy(out: array<Byte>, from: nat, to: nat, n: nat)
      requires out != window && from + n <= out.Length && to + n <= window.Length
      modifies window
      ensures window[..] == old(window[..])[..to] + out[..][from..from + n] + old(window[..])[to + n..]
    {
      for i := 0 to n
        invariant window[..] == old(window[..to]) + out[from..from + i] + old(window[to + i..])
      {
        window[to + i] := out[from + i];
      }
    }
  }
}
