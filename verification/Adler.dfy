/** Adler-32 (section 9 of RFC 1950): sums with the modulo deferred, and the combination of two checksums. */
module Adler {
  import opened Bytes

  const BASE: nat := 65521
  const NMAX: nat := 5552

  /** The two sums, each less than BASE. */
  datatype Sums = Sums(a: nat, b: nat)

  predicate Reduced(s: Sums) {
    s.a < BASE && s.b < BASE
  }

  /** One byte, by definition. */
  function Feed(s: Sums, c: Byte): Sums {
    var a := (s.a + c) % BASE;
    Sums(a, (s.b + a) % BASE)
  }

  function FeedAll(s: Sums, buf: seq<Byte>): (r: Sums)
    requires Reduced(s)
    ensures Reduced(r)
  {
    if buf == [] then s else Feed(FeedAll(s, buf[..|buf| - 1]), buf[|buf| - 1])
  }

  /** A checksum as one number. */
  function Pack(s: Sums): nat {
    s.a + 65536 * s.b
  }

  function Unpack(x: nat): Sums {
    Sums(x % 65536, x / 65536 % 65536)
  }

  lemma PackUnpack(s: Sums)
    requires Reduced(s)
    ensures Unpack(Pack(s)) == s
  {
  }

  lemma FeedMore(s: Sums, buf: seq<Byte>, c: Byte)
    requires Reduced(s)
    ensures FeedAll(s, buf + [c]) == Feed(FeedAll(s, buf), c)
  {
    assert (buf + [c])[..|buf|] == buf;
  }

  // ----- the constants -----

  /** No number from lo to hi divides n. */
  predicate NoDivisor(n: nat, lo: nat, hi: nat)
    requires lo > 0
    decreases hi + 1 - lo
  {
    lo > hi || (n % lo != 0 && NoDivisor(n, lo + 1, hi))
  }

  lemma {:induction false} NoDivisorAt(n: nat, lo: nat, hi: nat, d: nat)
    requires 0 < lo <= d <= hi && NoDivisor(n, lo, hi)
    ensures n % d != 0
    decreases d
  {
    if lo < d { NoDivisorFrom(n, lo, hi, d); }
  }

  lemma {:induction false} NoDivisorFrom(n: nat, lo: nat, hi: nat, d: nat)
    requires 0 < lo <= d <= hi && NoDivisor(n, lo, hi)
    ensures NoDivisor(n, d, hi)
    decreases d - lo
  {
    if lo < d { NoDivisorFrom(n, lo + 1, hi, d); }
  }

  predicate Prime(n: nat) {
    n > 1 && forall d: nat {:trigger n % d} :: 1 < d < n ==> n % d != 0
  }

  lemma NoDivisor2()
    ensures NoDivisor(BASE, 2, 51)
  {
    assert NoDivisor(BASE, 42, 51);
    assert NoDivisor(BASE, 32, 51);
    assert NoDivisor(BASE, 22, 51);
    assert NoDivisor(BASE, 12, 51);
  }

  lemma NoDivisor52()
    ensures NoDivisor(BASE, 52, 101)
  {
    assert NoDivisor(BASE, 92, 101);
    assert NoDivisor(BASE, 82, 101);
    assert NoDivisor(BASE, 72, 101);
    assert NoDivisor(BASE, 62, 101);
  }

  lemma NoDivisor102()
    ensures NoDivisor(BASE, 102, 151)
  {
    assert NoDivisor(BASE, 142, 151);
    assert NoDivisor(BASE, 132, 151);
    assert NoDivisor(BASE, 122, 151);
    assert NoDivisor(BASE, 112, 151);
  }

  lemma NoDivisor152()
    ensures NoDivisor(BASE, 152, 201)
  {
    assert NoDivisor(BASE, 192, 201);
    assert NoDivisor(BASE, 182, 201);
    assert NoDivisor(BASE, 172, 201);
    assert NoDivisor(BASE, 162, 201);
  }

  lemma NoDivisor202()
    ensures NoDivisor(BASE, 202, 255)
  {
    assert NoDivisor(BASE, 246, 255);
    assert NoDivisor(BASE, 236, 255);
    assert NoDivisor(BASE, 226, 255);
    assert NoDivisor(BASE, 216, 255);
    assert NoDivisor(BASE, 211, 255);
    assert NoDivisor(BASE, 206, 255);
  }

  lemma SmallDivisor(d: nat)
    requires 2 <= d <= 255
    ensures BASE % d != 0
  {
    hide NoDivisor;
    NoDivisor2();
    NoDivisor52();
    NoDivisor102();
    NoDivisor152();
    NoDivisor202();
    if d <= 51 {
      NoDivisorAt(BASE, 2, 51, d);
    } else if d <= 101 {
      NoDivisorAt(BASE, 52, 101, d);
    } else if d <= 151 {
      NoDivisorAt(BASE, 102, 151, d);
    } else if d <= 201 {
      NoDivisorAt(BASE, 152, 201, d);
    } else {
      NoDivisorAt(BASE, 202, 255, d);
    }
  }

  /** Of two factors one is less than 256. */
  lemma SmallFactor(d: nat, e: nat)
    requires d * e == BASE && d >= 256
    ensures e < 256
  {
    if e >= 256 { assert d * e >= 256 * 256 by { MulAtLeast(d, e); } }
  }

  lemma MulAtLeast(d: nat, e: nat)
    requires d >= 256 && e >= 256
    ensures d * e >= 256 * 256
  {
    assert (d - 256) * e >= 0;
    assert d * e == (d - 256) * e + 256 * e;
  }

  lemma Multiple(e: nat, k: int)
    ensures e * k >= e || e * k <= 0
  {
    if k >= 1 { AtLeastOnce(e, k); } else { assert e * -k >= 0; }
  }

  lemma AtLeastOnce(y: nat, k: nat)
    requires k >= 1
    ensures y * k >= y
  {
    assert y * k == y * (k - 1) + y;
  }

  lemma DividesToo(d: nat, e: nat)
    requires d * e == BASE && e > 0
    ensures BASE % e == 0
  {
    var q, r := BASE / e, BASE % e;
    assert BASE == e * q + r;
    assert e * (d - q) == r;
    Multiple(e, d - q);
  }

  lemma BasePrime(d: nat)
    requires 1 < d < BASE
    ensures BASE % d != 0
  {
    if d < 256 {
      SmallDivisor(d);
    } else if BASE % d == 0 {
      var e := BASE / d;
      assert d * e == BASE;
      SmallFactor(d, e);
      NotOne(d, e);
      DividesToo(d, e);
      SmallDivisor(e);
    }
  }

  lemma NotOne(d: nat, e: nat)
    requires d * e == BASE && d < BASE
    ensures e >= 2
  {
    assert e < 2 ==> d * e == if e == 0 then 0 else d;
  }

  lemma NotPrime(n: nat, d: nat)
    requires 1 < d < n && n % d == 0
    ensures !Prime(n)
  {
  }

  /** BASE is the largest prime below 65536. */
  lemma BaseIsLargestPrime(p: nat)
    requires BASE <= p < 65536
    ensures Prime(p) <==> p == BASE
  {
    if p == BASE {
      forall d: nat {:trigger p % d} | 1 < d < p
        ensures p % d != 0
      {
        BasePrime(d);
      }
    } else if p % 2 == 0 {
      NotPrime(p, 2);
    } else if p % 3 == 0 {
      NotPrime(p, 3);
    } else if p % 5 == 0 {
      NotPrime(p, 5);
    } else if p % 7 == 0 {
      NotPrime(p, 7);
    } else if p % 13 == 0 {
      NotPrime(p, 13);
    } else {
      NotPrime(p, 19);
    }
  }

  /** The most that the second sum can be after n bytes, all of them 255, with both sums at most BASE - 1 before. */
  function Most(n: nat): nat {
    255 * Triangle(n) + (BASE - 1) * (n + 1)
  }

  /** NMAX is the largest number of bytes after which the second sum still fits in 32 bits. */
  lemma NmaxIsLargest(n: nat)
    ensures Most(n) < 0x1_0000_0000 <==> n <= NMAX
  {
    TriangleIs(NMAX);
    TriangleIs(NMAX + 1);
    if n <= NMAX { TriangleMono(n, NMAX); } else { TriangleMono(NMAX + 1, n); }
  }

  /** The checksum of "abc". */
  lemma Abc()
    ensures Pack(FeedAll(ONE, [97, 98, 99])) == 0x024d0127
  {
    hide FeedAll;
    var s := [97, 98, 99];
    FeedNone(ONE);
    assert s == [] + [97] + [98] + [99];
    FeedMore(ONE, [], 97);
    FeedMore(ONE, [] + [97], 98);
    FeedMore(ONE, [] + [97] + [98], 99);
  }

  // ----- no overflow before the modulo -----

  /** 0 + 1 + ... + n */
  function Triangle(n: nat): nat {
    if n == 0 then 0 else Triangle(n - 1) + n
  }

  lemma {:induction false} TriangleIs(n: nat)
    ensures 2 * Triangle(n) == n * n + n
  {
    if n > 0 {
      TriangleIs(n - 1);
      assert n * n == (n - 1) * (n - 1) + 2 * (n - 1) + 1;
    }
  }

  /** What the running sums can be, i bytes after a modulo. */
  predicate Bounded(a: nat, b: nat, i: nat) {
    a <= BASE - 1 + 255 * i && b <= (BASE - 1) * (i + 1) + 255 * Triangle(i)
  }

  lemma {:induction false} TriangleMono(i: nat, n: nat)
    requires i <= n
    ensures Triangle(i) <= Triangle(n)
    decreases n
  {
    if i < n { TriangleMono(i, n - 1); }
  }

  /** NMAX bytes after a modulo the sums still fit in 32 bits. */
  lemma NoOverflow(a: nat, b: nat, i: nat)
    requires Bounded(a, b, i) && i <= NMAX
    ensures a < 0x1_0000_0000 && b < 0x1_0000_0000
  {
    TriangleMono(i, NMAX);
    TriangleIs(NMAX);
  }

  lemma BoundedNext(a: nat, b: nat, i: nat, c: Byte)
    requires Bounded(a, b, i)
    ensures Bounded(a + c, b + (a + c), i + 1)
  {
  }

  /** The running sums are congruent to the true ones. */
  predicate Tracks(a: nat, b: nat, s: Sums) {
    a % BASE == s.a && b % BASE == s.b
  }

  lemma TracksNext(a: nat, b: nat, s: Sums, c: Byte)
    requires Tracks(a, b, s)
    ensures Tracks(a + c, b + (a + c), Feed(s, c))
  {
    ModAdd(a, c);
    ModAdd(b, a + c);
    ModAdd(a + c, s.b);
  }

  lemma ModAdd(x: nat, y: nat)
    ensures (x + y) % BASE == (x % BASE + y) % BASE
  {
    var q, z := x / BASE, x % BASE + y;
    assert x + y == BASE * q + z;
    ModShift(q, z);
  }

  lemma ModShift(q: nat, z: nat)
    ensures (BASE * q + z) % BASE == z % BASE
  {
    var r := z / BASE;
    assert BASE * q + z == BASE * (q + r) + z % BASE;
  }

  // ----- combining -----

  function SumOf(buf: seq<Byte>): nat {
    if buf == [] then 0 else SumOf(buf[..|buf| - 1]) + buf[|buf| - 1]
  }

  /** The second sum's share of the bytes, from a first sum of 0. */
  function WeightOf(buf: seq<Byte>): nat {
    if buf == [] then 0 else WeightOf(buf[..|buf| - 1]) + SumOf(buf)
  }

  /** The sums without any modulo. */
  lemma {:induction false} FeedIsSums(s: Sums, buf: seq<Byte>)
    requires Reduced(s)
    ensures Tracks(s.a + SumOf(buf), s.b + |buf| * s.a + WeightOf(buf), FeedAll(s, buf))
  {
    hide Tracks, Feed;
    if buf == [] {
      FreshBounds(s);
      assert |buf| * s.a == 0;
    } else {
      var t, c := buf[..|buf| - 1], buf[|buf| - 1];
      FeedIsSums(s, t);
      MulSucc(|t|, s.a);
      TracksNext(s.a + SumOf(t), s.b + |t| * s.a + WeightOf(t), FeedAll(s, t), c);
    }
  }

  lemma MulSucc(n: nat, a: nat)
    ensures (n + 1) * a == n * a + a && n * a >= 0
  {
  }

  lemma {:induction false} FeedAppend(s: Sums, x: seq<Byte>, y: seq<Byte>)
    requires Reduced(s)
    ensures FeedAll(s, x + y) == FeedAll(FeedAll(s, x), y)
    decreases |y|
  {
    if y == [] {
      assert x + y == x;
    } else {
      assert (x + y)[..|x + y| - 1] == x + y[..|y| - 1];
      FeedAppend(s, x, y[..|y| - 1]);
    }
  }

  /** The checksum of no bytes. */
  const ONE := Sums(1, 0)

  /** The formula of adler32_combine, modulo BASE. */
  lemma CombineSums(s: Sums, y: seq<Byte>, rem: nat)
    requires Reduced(s) && rem == |y| % BASE
    ensures var r, t := FeedAll(s, y), FeedAll(ONE, y);
      && r.a == (s.a + t.a + BASE - 1) % BASE
      && r.b == (rem * s.a % BASE + s.b + t.b + BASE - rem) % BASE
  {
    hide FeedAll, SumOf, WeightOf;
    var n, q := |y|, |y| / BASE;
    FeedIsSums(s, y);
    FeedIsSums(ONE, y);
    FirstSums(s.a, SumOf(y));
    Distribute(q, rem, s.a);
    assert n == BASE * q + rem && n * ONE.a == n;
    SecondSums(s.b, WeightOf(y), n * s.a, q * s.a, rem * s.a, n, q, rem);
  }

  lemma FirstSums(a: nat, sa: nat)
    ensures (a + sa) % BASE == (a + (1 + sa) % BASE + BASE - 1) % BASE
  {
    ModAdd(1 + sa, a + BASE - 1);
    ModShift(1, a + sa);
  }

  /** The second sums, with the products given by name. */
  lemma SecondSums(b: nat, w: nat, na: nat, qa: nat, ra: nat, n: nat, q: nat, rem: nat)
    requires n == BASE * q + rem && rem < BASE && na == BASE * qa + ra
    ensures (b + na + w) % BASE == (ra % BASE + b + (0 + n + w) % BASE + BASE - rem) % BASE
  {
    ModAdd(ra, b + w);
    ModShift(qa, ra + b + w);
    ModAdd(n + w, ra % BASE + b + BASE - rem);
    ModShift(q + 1, ra % BASE + b + w);
  }

  lemma Distribute(q: nat, rem: nat, a: nat)
    ensures (BASE * q + rem) * a == BASE * (q * a) + rem * a && q * a >= 0 && rem * a >= 0
  {
  }

  lemma ModSmall(x: nat)
    requires x < 4 * BASE
    ensures x % BASE ==
      if x < BASE then x else if x < 2 * BASE then x - BASE else if x < 3 * BASE then x - 2 * BASE else x - 3 * BASE
  {
  }

  /** adler32_combine_(), for a second message of len2 bytes. */
  method Combine(adler1: nat, adler2: nat, len2: nat) returns (r: nat)
    requires Reduced(Unpack(adler1)) && Reduced(Unpack(adler2))
    ensures var s, t, rem := Unpack(adler1), Unpack(adler2), len2 % BASE;
      r == Pack(Sums((s.a + t.a + BASE - 1) % BASE, (rem * s.a % BASE + s.b + t.b + BASE - rem) % BASE))
  {
    var rem := len2 % BASE;
    var sum1 := adler1 % 65536;
    var sum2 := rem * sum1;
    sum2 := sum2 % BASE;
    sum1 := sum1 + adler2 % 65536 + BASE - 1;
    sum2 := sum2 + adler1 / 65536 % 65536 + adler2 / 65536 % 65536 + BASE - rem;
    ghost var x, y := sum1, sum2;
    ModSmall(x);
    ModSmall(y);
    if sum1 >= BASE { sum1 := sum1 - BASE; }
    if sum1 >= BASE { sum1 := sum1 - BASE; }
    if sum2 >= 2 * BASE { sum2 := sum2 - 2 * BASE; }
    if sum2 >= BASE { sum2 := sum2 - BASE; }
    assert sum1 == x % BASE && sum2 == y % BASE;
    r := sum1 + 65536 * sum2;
  }

  /** Combining the checksums of two messages gives the checksum of their concatenation. */
  method CombineMessages(ghost x: seq<Byte>, ghost y: seq<Byte>, adler1: nat, adler2: nat, len2: nat) returns (r: nat)
    requires adler1 == Pack(FeedAll(ONE, x)) && adler2 == Pack(FeedAll(ONE, y)) && len2 == |y|
    ensures r == Pack(FeedAll(ONE, x + y))
  {
    hide FeedAll, Pack, Unpack;
    PackUnpack(FeedAll(ONE, x));
    PackUnpack(FeedAll(ONE, y));
    FeedAppend(ONE, x, y);
    CombineSums(FeedAll(ONE, x), y, len2 % BASE);
    r := Combine(adler1, adler2, len2);
  }

  // ----- the loops -----

  /** DO1, n times: n sums without a modulo, i bytes after the last one. */
  method Do(buf: seq<Byte>, at: nat, n: nat, adler: nat, sum2: nat, ghost start: Sums, ghost i: nat)
    returns (adler': nat, sum2': nat)
    requires at + n <= |buf| && i + n <= NMAX && Reduced(start)
    requires Bounded(adler, sum2, i) && Tracks(adler, sum2, FeedAll(start, buf[..at]))
    ensures Bounded(adler', sum2', i + n) && Tracks(adler', sum2', FeedAll(start, buf[..at + n]))
    ensures adler' < 0x1_0000_0000 && sum2' < 0x1_0000_0000
  {
    hide Bounded, Tracks, Feed, FeedAll;
    adler', sum2' := adler, sum2;
    NoOverflow(adler, sum2, i);
    for k := 0 to n
      invariant Bounded(adler', sum2', i + k) && Tracks(adler', sum2', FeedAll(start, buf[..at + k]))
      invariant adler' < 0x1_0000_0000 && sum2' < 0x1_0000_0000
    {
      var c := buf[at + k];
      assert buf[..at + k + 1] == buf[..at + k] + [c];
      FeedMore(start, buf[..at + k], c);
      BoundedNext(adler', sum2', i + k, c);
      TracksNext(adler', sum2', FeedAll(start, buf[..at + k]), c);
      adler' := adler' + c;
      sum2' := sum2' + adler';
      NoOverflow(adler', sum2', i + k + 1);
    }
  }

  lemma FreshBounds(s: Sums)
    requires Reduced(s)
    ensures Bounded(s.a, s.b, 0) && Tracks(s.a, s.b, s)
  {
  }

  /** adler32() of a buffer that is not Z_NULL. */
  method Adler32(adler: nat, buf: seq<Byte>) returns (r: nat)
    requires Reduced(Unpack(adler))
    ensures r == Pack(FeedAll(Unpack(adler), buf))
  {
    hide Bounded, FeedAll, Feed;
    var sum2: nat, a: nat := adler / 65536 % 65536, adler % 65536;
    ghost var start := Unpack(adler);
    FreshBounds(start);
    assert buf[..0] == [] && FeedAll(start, []) == start by { FeedNone(start); }
    var len: nat := |buf|;
    if len == 1 {
      a, sum2 := OneByte(a, sum2, buf[0]);
      FeedOne(start, buf);
      return a + 65536 * sum2;
    }
    if len < 16 {
      ghost var a0 := a;
      a, sum2 := Do(buf, 0, len, a, sum2, start, 0);
      ShortSum(a, sum2, len);
      if a >= BASE { a := a - BASE; }
      sum2 := sum2 % BASE;
      assert buf[..len] == buf;
      Final(a, sum2, FeedAll(start, buf));
      return a + 65536 * sum2;
    }
    var at: nat := 0;
    while len >= NMAX
      invariant at + len == |buf| && a < BASE && sum2 < BASE && Tracks(a, sum2, FeedAll(start, buf[..at]))
      decreases len
    {
      len := len - NMAX;
      ghost var at0 := at;
      FreshBounds(Sums(a, sum2));
      for n := 0 to NMAX / 16
        invariant at == at0 + 16 * n && Bounded(a, sum2, 16 * n) && Tracks(a, sum2, FeedAll(start, buf[..at]))
      {
        a, sum2 := Do(buf, at, 16, a, sum2, start, 16 * n);
        at := at + 16;
      }
      a, sum2 := a % BASE, sum2 % BASE;
    }
    if len != 0 {
      ghost var at0 := at;
      FreshBounds(Sums(a, sum2));
      while len >= 16
        invariant at + len == |buf| && at0 <= at && |buf| - at0 < NMAX && Bounded(a, sum2, at - at0)
          && Tracks(a, sum2, FeedAll(start, buf[..at]))
        decreases len
      {
        a, sum2 := Do(buf, at, 16, a, sum2, start, at - at0);
        len, at := len - 16, at + 16;
      }
      a, sum2 := Do(buf, at, len, a, sum2, start, at - at0);
      at := at + len;
      a, sum2 := a % BASE, sum2 % BASE;
    }
    assert buf[..|buf|] == buf;
    Final(a, sum2, FeedAll(start, buf));
    r := a + 65536 * sum2;
  }

  lemma FeedNone(s: Sums)
    requires Reduced(s)
    ensures FeedAll(s, []) == s
  {
  }

  lemma Final(a: nat, b: nat, s: Sums)
    requires a < BASE && b < BASE && Tracks(a, b, s)
    ensures a + 65536 * b == Pack(s)
  {
  }

  /** The path for a single byte. */
  method OneByte(a: nat, b: nat, c: Byte) returns (a': nat, b': nat)
    requires a < BASE && b < BASE
    ensures Sums(a', b') == Feed(Sums(a, b), c)
  {
    a' := a + c;
    if a' >= BASE { a' := a' - BASE; }
    b' := b + a';
    if b' >= BASE { b' := b' - BASE; }
  }

  lemma FeedOne(s: Sums, buf: seq<Byte>)
    requires Reduced(s) && |buf| == 1
    ensures FeedAll(s, buf) == Feed(s, buf[0])
  {
    assert buf[..0] == [];
    assert FeedAll(s, buf[..0]) == s;
  }

  /** Fewer than sixteen bytes carry the first sum past BASE at most once. */
  lemma ShortSum(a: nat, b: nat, n: nat)
    requires Bounded(a, b, n) && n < 16
    ensures a < 2 * BASE
  {
  }
}
