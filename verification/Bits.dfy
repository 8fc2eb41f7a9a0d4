/** Shifts, masks and bit reversal on naturals, defined one bit at a time. */
module Bits {

  /** 1 << n */
  function Pow2(n: nat): (r: nat)
    ensures r >= 1
  {
    if n == 0 then 1 else 2 * Pow2(n - 1)
  }

  /** x << n */
  function Shl(x: nat, n: nat): (r: nat)
    ensures r >= x
  {
    if n == 0 then x else 2 * Shl(x, n - 1)
  }

  /** x >> n */
  function Hi(x: nat, n: nat): (r: nat)
    ensures r <= x
  {
    if n == 0 then x else Hi(x / 2, n - 1)
  }

  /** x & ((1 << n) - 1) */
  function Lo(x: nat, n: nat): (r: nat)
    ensures r < Pow2(n) && r <= x
  {
    if n == 0 then 0 else x % 2 + 2 * Lo(x / 2, n - 1)
  }

  /** The low n bits of x in the opposite order. */
  function Rev(x: nat, n: nat): (r: nat)
    ensures r < Pow2(n)
  {
    if n == 0 then 0 else (if x % 2 == 1 then Pow2(n - 1) else 0) + Rev(x / 2, n - 1)
  }

  // ----- powers and shifts -----

  lemma {:induction false} Pow2Mono(a: nat, b: nat)
    requires a <= b
    ensures Pow2(a) <= Pow2(b)
    ensures a < b ==> 2 * Pow2(a) <= Pow2(b)
    decreases b
  {
    if a < b {
      Pow2Mono(a, b - 1);
    }
  }

  lemma {:induction false} ShlAdd(x: nat, y: nat, n: nat)
    ensures Shl(x + y, n) == Shl(x, n) + Shl(y, n)
  {
    if n > 0 {
      ShlAdd(x, y, n - 1);
    }
  }

  lemma {:induction false} ShlOne(n: nat)
    ensures Shl(1, n) == Pow2(n) && Shl(0, n) == 0
  {
    if n > 0 {
      ShlOne(n - 1);
    }
  }

  lemma ShlZero(x: nat)
    ensures Shl(x, 0) == x
  {
  }

  lemma HiZero(x: nat)
    ensures Hi(x, 0) == x
  {
  }

  lemma ShlMono(x: nat, y: nat, n: nat)
    requires x <= y
    ensures Shl(x, n) <= Shl(y, n)
    ensures x < y ==> Shl(x, n) + Pow2(n) <= Shl(y, n)
  {
    ShlAdd(x, y - x, n);
    if x < y {
      ShlAdd(1, y - x - 1, n);
      ShlOne(n);
    }
  }

  lemma {:induction false} ShlShl(x: nat, a: nat, b: nat)
    ensures Shl(Shl(x, a), b) == Shl(x, a + b)
  {
    if b > 0 {
      ShlShl(x, a, b - 1);
    }
  }

  lemma ShlEight(x: nat)
    ensures Shl(x, 8) == 256 * x
  {
    assert Shl(x, 1) == 2 * Shl(x, 0);
    assert Shl(x, 2) == 4 * x;
    assert Shl(x, 4) == 16 * x;
    assert Shl(x, 6) == 64 * x;
  }

  lemma Pow2Shl(a: nat, b: nat)
    ensures Shl(Pow2(a), b) == Pow2(a + b)
  {
    ShlOne(a);
    ShlShl(1, a, b);
    ShlOne(a + b);
  }

  lemma ShlBound(x: nat, a: nat, b: nat)
    requires x < Pow2(a)
    ensures Shl(x, b) + Pow2(b) <= Pow2(a + b)
  {
    ShlMono(x, Pow2(a), b);
    Pow2Shl(a, b);
  }

  // ----- splitting a number at bit n -----

  lemma {:induction false} Split(x: nat, n: nat)
    ensures x == Shl(Hi(x, n), n) + Lo(x, n)
  {
    if n > 0 {
      Split(x / 2, n - 1);
    }
  }

  /** The number with high part h and low part l. */
  lemma {:induction false} Join(h: nat, l: nat, n: nat)
    requires l < Pow2(n)
    ensures Hi(Shl(h, n) + l, n) == h && Lo(Shl(h, n) + l, n) == l
  {
    if n > 0 {
      var y := Shl(h, n) + l;
      assert y / 2 == Shl(h, n - 1) + l / 2 && y % 2 == l % 2;
      Join(h, l / 2, n - 1);
    }
  }

  lemma {:induction false} HiHi(x: nat, a: nat, b: nat)
    ensures Hi(Hi(x, a), b) == Hi(x, a + b)
  {
    if a > 0 {
      HiHi(x / 2, a - 1, b);
    }
  }

  lemma {:induction false} LoHi(x: nat, a: nat, b: nat)
    ensures Lo(Hi(x, a), b) == Hi(Lo(x, a + b), a)
  {
    if a > 0 {
      LoHi(x / 2, a - 1, b);
      LoStep(x, a + b);
    }
  }

  lemma LoStep(x: nat, n: nat)
    requires n > 0
    ensures Lo(x, n) % 2 == x % 2 && Lo(x, n) / 2 == Lo(x / 2, n - 1)
  {
  }

  lemma LoLo(x: nat, a: nat, b: nat)
    requires a <= b
    ensures Lo(Lo(x, b), a) == Lo(x, a)
  {
    Split(x, b);
    AddAbove(Lo(x, b), Hi(x, b), b, a);
  }

  lemma {:induction false} LoSmall(x: nat, n: nat)
    requires x < Pow2(n)
    ensures Lo(x, n) == x && Hi(x, n) == 0
  {
    if n > 0 {
      LoSmall(x / 2, n - 1);
    }
  }

  lemma {:induction false} HiBound(x: nat, a: nat, b: nat)
    requires x < Pow2(a + b)
    ensures Hi(x, a) < Pow2(b)
  {
    if a > 0 {
      HiBound(x / 2, a - 1, b);
    }
  }

  /** x lies in the interval of numbers that start with the bits of c. */
  lemma HiInterval(x: nat, c: nat, n: nat)
    ensures Hi(x, n) == c <==> Shl(c, n) <= x < Shl(c, n) + Pow2(n)
  {
    Split(x, n);
    if Shl(c, n) <= x < Shl(c, n) + Pow2(n) {
      Join(c, x - Shl(c, n), n);
    }
  }

  /** Bits added at position n and above do not affect the bits below it. */
  lemma {:induction false} AddAbove(x: nat, w: nat, n: nat, k: nat)
    requires k <= n
    ensures Lo(x + Shl(w, n), k) == Lo(x, k)
    ensures Hi(x + Shl(w, n), k) == Hi(x, k) + Shl(w, n - k)
  {
    if k > 0 {
      var y := x + Shl(w, n);
      assert y % 2 == x % 2 && y / 2 == x / 2 + Shl(w, n - 1);
      AddAbove(x / 2, w, n - 1, k - 1);
    }
  }

  // ----- bit reversal -----

  lemma {:induction false} RevZero(n: nat)
    ensures Rev(0, n) == 0
  {
    if n > 0 {
      RevZero(n - 1);
    }
  }

  /** Appending zero bits at the bottom does not change the reversed number. */
  lemma {:induction false} RevShl(x: nat, n: nat, d: nat)
    ensures Rev(Shl(x, d), n + d) == Rev(x, n)
  {
    if d > 0 {
      RevShl(x, n, d - 1);
      assert Shl(x, d) % 2 == 0 && Shl(x, d) / 2 == Shl(x, d - 1);
    }
  }

  /** Splitting a number at bit j splits its reversal the other way round. */
  lemma {:induction false} RevSplit(x: nat, j: nat, k: nat)
    ensures Rev(x, j + k) == Shl(Rev(x, j), k) + Rev(Hi(x, j), k)
    decreases j
  {
    if j == 0 {
      ShlOne(k);
    } else {
      RevSplit(x / 2, j - 1, k);
      assert Rev(x, j + k) == (if x % 2 == 1 then Pow2(j + k - 1) else 0) + Rev(x / 2, j - 1 + k);
      if x % 2 == 1 {
        ShlAdd(Pow2(j - 1), Rev(x / 2, j - 1), k);
        Pow2Shl(j - 1, k);
      }
    }
  }

  /** Low bits of the reversal are the reversed high bits, and conversely. */
  lemma RevLow(x: nat, j: nat, k: nat)
    ensures Lo(Rev(x, j + k), k) == Rev(Hi(x, j), k)
    ensures Hi(Rev(x, j + k), k) == Rev(x, j)
  {
    RevSplit(x, j, k);
    Join(Rev(x, j), Rev(Hi(x, j), k), k);
  }

  lemma {:induction false} RevLo(x: nat, n: nat, m: nat)
    requires n <= m
    ensures Rev(Lo(x, m), n) == Rev(x, n)
  {
    if n > 0 {
      LoStep(x, m);
      RevLo(x / 2, n - 1, m - 1);
    }
  }

  /** The reversal of a number with top bit b ends in b. */
  lemma RevTop(b: nat, r: nat, n: nat)
    requires b < 2 && r < Pow2(n)
    ensures Rev(Shl(b, n) + r, n + 1) == 2 * Rev(r, n) + b
  {
    var y := Shl(b, n) + r;
    RevSplit(y, n, 1);
    Join(b, r, n);
    RevLo(y, n, n);
    assert Rev(b, 1) == b by { assert Rev(b / 2, 0) == 0 && Pow2(0) == 1; }
    assert Shl(Rev(r, n), 1) == 2 * Shl(Rev(r, n), 0);
  }

  lemma {:induction false} RevRev(x: nat, n: nat)
    ensures Rev(Rev(x, n), n) == Lo(x, n)
  {
    hide Shl, Pow2;
    if n > 0 {
      RevRev(x / 2, n - 1);
      RevFirst(x, n);
      RevTop(x % 2, Rev(x / 2, n - 1), n - 1);
    }
  }

  /** The lowest bit becomes the highest. */
  lemma RevFirst(x: nat, n: nat)
    requires n > 0
    ensures Rev(x, n) == Shl(x % 2, n - 1) + Rev(x / 2, n - 1)
  {
    hide Shl, Pow2;
    ShlOne(n - 1);
  }

  lemma RevInjective(a: nat, b: nat, n: nat)
    requires a < Pow2(n) && b < Pow2(n) && Rev(a, n) == Rev(b, n)
    ensures a == b
  {
    RevRev(a, n);
    RevRev(b, n);
    LoSmall(a, n);
    LoSmall(b, n);
  }
}
