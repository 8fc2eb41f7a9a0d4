/** SHA-1 (section 6.1 of RFC 3174), and the context that computes it piece by piece. */
module Sha1 {
  import opened Bytes

  type Word = bv32
  type Octet = bv8

  function Rotate(n: nat, x: Word): Word
    requires n <= 32
  {
    (x << n) | (x >> (32 - n))
  }

  function F(t: nat, b: Word, c: Word, d: Word): Word {
    if t < 20 then (b & c) | (!b & d)
    else if t < 40 then b ^ c ^ d
    else if t < 60 then (b & c) | (b & d) | (c & d)
    else b ^ c ^ d
  }

  function K(t: nat): Word {
    if t < 20 then 0x5a827999 else if t < 40 then 0x6ed9eba1 else if t < 60 then 0x8f1bbcdc else 0xca62c1d6
  }

  /** The five words of the state, or of the working variables. */
  datatype Chain = Chain(a: Word, b: Word, c: Word, d: Word, e: Word)

  const START := Chain(0x67452301, 0xefcdab89, 0x98badcfe, 0x10325476, 0xc3d2e1f0)

  /** A word of four octets, most significant first. */
  function BigEndian(p: Octet, q: Octet, r: Octet, s: Octet): Word {
    ((p as Word) << 24) | ((q as Word) << 16) | ((r as Word) << 8) | (s as Word)
  }

  /** The i-th word of a block, most significant byte first. */
  function BlockWord(block: seq<Octet>, i: nat): Word
    requires |block| == 64 && i < 16
  {
    BigEndian(block[4 * i], block[4 * i + 1], block[4 * i + 2], block[4 * i + 3])
  }

  /** The schedule of eighty words. */
  function Schedule(block: seq<Octet>, t: nat): Word
    requires |block| == 64
  {
    if t < 16 then BlockWord(block, t)
    else Rotate(1, Schedule(block, t - 3) ^ Schedule(block, t - 8) ^ Schedule(block, t - 14) ^ Schedule(block, t - 16))
  }

  /** Addition modulo 2^32. */
  function Sum(p: Word, q: Word, r: Word, s: Word, t: Word): Word {
    p + q + r + s + t
  }

  function Round(v: Chain, t: nat, w: Word): Chain {
    Chain(Sum(Rotate(5, v.a), F(t, v.b, v.c, v.d), v.e, w, K(t)), v.a, Rotate(30, v.b), v.c, v.d)
  }

  function Rounds(h: Chain, block: seq<Octet>, t: nat): Chain
    requires |block| == 64
  {
    if t == 0 then h else Round(Rounds(h, block, t - 1), t - 1, Schedule(block, t - 1))
  }

  function AddChain(h: Chain, v: Chain): Chain {
    Chain(h.a + v.a, h.b + v.b, h.c + v.c, h.d + v.d, h.e + v.e)
  }

  function Compress(h: Chain, block: seq<Octet>): Chain
    requires |block| == 64
  {
    AddChain(h, Rounds(h, block, 80))
  }

  /** All whole blocks of s. */
  function HashBlocks(s: seq<Octet>): Chain
    requires |s| % 64 == 0
  {
    if s == [] then START else Compress(HashBlocks(s[..|s| - 64]), s[|s| - 64..])
  }

  /** The 64-bit length in bits, most significant byte first. */
  function LengthBytes(bits: nat): (s: seq<Octet>)
    ensures |s| == 8
  {
    seq(8, i requires 0 <= i < 8 => ByteOf(bits, 7 - i))
  }

  /** Byte i of a number, least significant first. */
  function ByteOf(x: nat, i: nat): Octet {
    if i == 0 then (x % 256) as Octet else ByteOf(x / 256, i - 1)
  }

  /** Section 4 of RFC 3174: one bit, the fewest zeros, the length. */
  function Padding(msg: seq<Octet>): seq<Octet> {
    [0x80] + Repeat<Octet>(0, (119 - |msg| % 64) % 64) + LengthBytes(8 * |msg|)
  }

  lemma PaddedSize(msg: seq<Octet>)
    ensures |msg + Padding(msg)| % 64 == 0
  {
  }

  function Sha1Of(msg: seq<Octet>): Chain {
    PaddedSize(msg);
    HashBlocks(msg + Padding(msg))
  }

  // ----- one block -----

  /** The last sixteen words of the schedule before t, each in its place modulo sixteen. */
  ghost predicate Holds(w: seq<Word>, block: seq<Octet>, t: nat)
    requires |block| == 64
  {
    |w| == 16 && forall j: nat {:trigger Schedule(block, j)} :: t <= j + 16 && j < t ==> w[j % 16] == Schedule(block, j)
  }

  lemma Places(t: nat)
    requires t >= 16
    ensures (t % 16 + 13) % 16 == (t - 3) % 16 && (t % 16 + 8) % 16 == (t - 8) % 16
    ensures (t % 16 + 2) % 16 == (t - 14) % 16 && t % 16 == (t - 16) % 16
  {
    var q, r := t / 16, t % 16;
    assert t == 16 * q + r;
    Residue(q, r + 13, t - 3 + 16);
    Residue(q, r + 8, t - 8 + 16);
    Residue(q, r + 2, t - 14 + 16);
    Residue(1, t - 3, t - 3 + 16);
    Residue(1, t - 8, t - 8 + 16);
    Residue(1, t - 14, t - 14 + 16);
    Residue(1, t - 16, t);
  }

  lemma Residue(q: nat, r: nat, x: nat)
    requires x == 16 * q + r
    ensures x % 16 == r % 16
  {
  }

  lemma HoldsAt(w: seq<Word>, block: seq<Octet>, t: nat, j: nat)
    requires |block| == 64 && Holds(w, block, t) && t <= j + 16 && j < t
    ensures |w| == 16 && w[j % 16] == Schedule(block, j)
  {
    hide Schedule;
  }

  lemma ScheduleIs(block: seq<Octet>, t: nat)
    requires |block| == 64 && t >= 16
    ensures Schedule(block, t) ==
      Rotate(1, Schedule(block, t - 3) ^ Schedule(block, t - 8) ^ Schedule(block, t - 14) ^ Schedule(block, t - 16))
  {
    hide Rotate;
  }

  /** One more word of the schedule, from the words in place. */
  lemma NextWord(w: seq<Word>, block: seq<Octet>, t: nat)
    requires |block| == 64 && Holds(w, block, t) && t >= 16
    ensures |w| == 16
    ensures Rotate(1, w[(t % 16 + 13) % 16] ^ w[(t % 16 + 8) % 16] ^ w[(t % 16 + 2) % 16] ^ w[t % 16]) ==
      Schedule(block, t)
  {
    hide Rotate, Schedule, Holds;
    Places(t);
    HoldsAt(w, block, t, t - 3);
    HoldsAt(w, block, t, t - 8);
    HoldsAt(w, block, t, t - 14);
    HoldsAt(w, block, t, t - 16);
    ScheduleIs(block, t);
  }

  /** It takes the place of the oldest. */
  lemma HoldsNext(w: seq<Word>, block: seq<Octet>, t: nat)
    requires |block| == 64 && Holds(w, block, t) && t >= 16
    ensures |w| == 16 && Holds(w[t % 16 := Schedule(block, t)], block, t + 1)
  {
    hide Schedule;
  }

  /** The first sixteen words are the block. */
  lemma HoldsFirst(w: seq<Word>, block: seq<Octet>, t: nat)
    requires |block| == 64 && |w| == 16 && t <= 16
      && forall j: nat {:trigger w[j]} :: j < 16 ==> w[j] == BlockWord(block, j)
    ensures Holds(w, block, t)
  {
    hide BlockWord;
  }

  /** W(s), brought up to date for round t in its place among the sixteen words. */
  method WordFor(w: array<Word>, t: nat, ghost block: seq<Octet>) returns (word: Word)
    requires |block| == 64 && w.Length == 16 && Holds(w[..], block, if t < 16 then 16 else t)
    modifies w
    ensures word == Schedule(block, t) && Holds(w[..], block, if t < 15 then 16 else t + 1)
  {
    hide Rotate, Schedule, Holds;
    var s := t % 16;
    if t >= 16 {
      NextWord(w[..], block, t);
      HoldsNext(w[..], block, t);
      ghost var before := w[..];
      w[s] := Rotate(1, w[(s + 13) % 16] ^ w[(s + 8) % 16] ^ w[(s + 2) % 16] ^ w[s]);
      assert w[..] == before[s := Schedule(block, t)];
      HoldsAt(w[..], block, t + 1, t);
    } else {
      HoldsAt(w[..], block, 16, t);
    }
    word := w[s];
  }

  lemma RoundsNext(h: Chain, block: seq<Octet>, t: nat)
    requires |block| == 64
    ensures Rounds(h, block, 0) == h && Rounds(h, block, t + 1) == Round(Rounds(h, block, t), t, Schedule(block, t))
  {
    hide Round, Schedule;
  }

  /** e = d; d = c; c = S(30, b); b = a; a = tmp */
  method OneRound(v: Chain, t: nat, word: Word) returns (v': Chain)
    ensures v' == Round(v, t, word)
  {
    hide Rotate, F, K, Sum;
    var tmp := Sum(Rotate(5, v.a), F(t, v.b, v.c, v.d), v.e, word, K(t));
    v' := Chain(tmp, v.a, Rotate(30, v.b), v.c, v.d);
  }

  /** Eighty rounds over the sixteen words of a block. */
  method RunRounds(w: array<Word>, h: Chain, ghost block: seq<Octet>) returns (v: Chain)
    requires |block| == 64 && w.Length == 16 && Holds(w[..], block, 16)
    modifies w
    ensures v == Rounds(h, block, 80)
  {
    hide Rotate, Schedule, Holds, Round, Rounds;
    v := h;
    RoundsNext(h, block, 0);
    for t := 0 to 80
      invariant v == Rounds(h, block, t)
      invariant Holds(w[..], block, if t < 16 then 16 else t)
    {
      RoundsNext(h, block, t);
      var word := WordFor(w, t, block);
      v := OneRound(v, t, word);
    }
  }

  // ----- the context -----

  lemma HashMore(s: seq<Octet>, block: seq<Octet>)
    requires |s| % 64 == 0 && |block| == 64
    ensures |s + block| % 64 == 0 && HashBlocks(s + block) == Compress(HashBlocks(s), block)
  {
    hide Compress;
    assert (s + block)[..|s + block| - 64] == s && (s + block)[|s + block| - 64..] == block;
  }

  class Context {
    var h: Chain
    const m: array<Octet>
    var count: nat
    /** Message length in bits, modulo 2^64. */
    var c: nat
    /** Every byte put so far, padding included. */
    ghost var fed: seq<Octet>

    ghost function Whole(): (s: seq<Octet>)
      reads this`fed
      ensures |s| % 64 == 0
    {
      fed[..|fed| - |fed| % 64]
    }

    ghost predicate Valid()
      reads this`h, this`count, this`fed, m
    {
      && m.Length == 64 && count == |fed| % 64 && m[..count] == fed[|fed| - count..] && h == HashBlocks(Whole())
    }

    /** c counts the bits of the message, modulo 2^64. */
    ghost predicate Counted()
      reads this`c, this`fed
    {
      c == 8 * |fed| % 0x1_0000_0000_0000_0000
    }

    lemma Counts()
      requires Valid()
      ensures count == |fed| % 64 && m.Length == 64
    {
      hide HashBlocks;
    }

    /** sha1_init() */
    constructor ()
      ensures Valid() && fed == [] && Counted() && fresh(m)
    {
      h := START;
      m := new Octet[64](_ => 0);
      count, c, fed := 0, 0, [];
      new;
      hide Compress;
      assert Whole() == [];
    }

    /** sha1_step() on the full block in m. */
    method Step(ghost s: seq<Octet>)
      requires m.Length == 64 && |s| % 64 == 0 && h == HashBlocks(s)
      modifies this`h, m
      ensures h == HashBlocks(s + old(m[..])) && m[..] == Repeat<Octet>(0, 64)
    {
      hide Schedule, Holds, HashBlocks, Rounds, BlockWord, AddChain;
      ghost var block := m[..];
      HashMore(s, block);
      var w := new Word[16];
      for i := 0 to 16
        invariant h == old(h) && m[..] == block
          && forall j: nat {:trigger w[j]} :: j < i ==> w[j] == BlockWord(block, j)
      {
        w[i] := BlockWord(m[..], i);
      }
      HoldsFirst(w[..], block, 16);
      var v := RunRounds(w, h, block);
      h := AddChain(h, v);
      assert h == Compress(HashBlocks(s), block);
      Clear(0, 64);
      assert m[..] == m[0..64];
    }

    /** bzero of part of m */
    method Clear(at: nat, n: nat)
      requires at + n <= m.Length
      modifies m
      ensures m[..at] == old(m[..at]) && m[at..at + n] == Repeat<Octet>(0, n) && m[at + n..] == old(m[at + n..])
    {
      ghost var m0 := m[..];
      for i := 0 to n
        invariant m[..at] == m0[..at] && m[at..at + i] == Repeat<Octet>(0, i) && m[at + i..] == m0[at + i..]
      {
        m[at + i] := 0;
        assert m[at..at + i + 1] == m[at..at + i] + [0];
        assert m[at + i + 1..] == m0[at + i + 1..];
      }
    }

    /** count has grown by the bytes x; a full block is hashed. */
    method StepIfFull(ghost f: seq<Octet>, ghost x: seq<Octet>)
      requires m.Length == 64 && fed == f + x && count == |f| % 64 + |x| <= 64
      requires m[..count] == fed[|fed| - count..] && h == HashBlocks(f[..|f| - |f| % 64])
      modifies this`h, this`count, m
      ensures Valid()
    {
      hide HashBlocks;
      Grown(f, x);
      if count == 64 {
        assert m[..] == m[..64];
        Step(f[..|f| - |f| % 64]);
        count := 0;
      }
    }

    /** PUTPAD: one byte, and a step when the block is full. */
    method PutPad(x: Octet)
      requires Valid()
      modifies this`h, this`count, this`fed, m
      ensures Valid() && fed == old(fed) + [x]
    {
      hide HashBlocks;
      ghost var f := fed;
      m[count] := x;
      count := count + 1;
      fed := fed + [x];
      assert m[..count] == f[|f| - (count - 1)..] + [x];
      StepIfFull(f, [x]);
    }

    /** Zero bytes after the bytes in the block. */
    method PutZeros(n: nat)
      requires Valid() && count + n <= 64
      modifies this`h, this`count, this`fed, m
      ensures Valid() && fed == old(fed) + Repeat<Octet>(0, n)
    {
      hide HashBlocks;
      ghost var f, k := fed, count;
      Clear(count, n);
      fed := fed + Repeat<Octet>(0, n);
      count := count + n;
      assert m[..count] == m[..k] + m[k..k + n] == f[|f| - k..] + Repeat<Octet>(0, n);
      StepIfFull(f, Repeat<Octet>(0, n));
    }

    /** sha1_pad(): the padding of the message, whose length in bits is c. */
    method Pad()
      requires Valid()
      modifies this`h, this`count, this`fed, m
      ensures Valid() && fed == old(fed) + ([0x80] + Repeat<Octet>(0, (119 - |old(fed)| % 64) % 64) + LengthBytes(c))
    {
      hide HashBlocks, LengthBytes, Valid, Repeat;
      ghost var f := fed;
      Counts();
      PutPad(0x80);
      Counts();
      PadPlaces(|f|);
      var padlen := 64 - count;
      ghost var g := fed;
      if padlen < 8 {
        PutZeros(padlen);
        Counts();
        PutZeros(56);
        ZerosAdd(padlen, 56);
        assert fed == g + (Repeat<Octet>(0, padlen) + Repeat<Octet>(0, 56));
      } else {
        PutZeros(padlen - 8);
      }
      ghost var zeros := (119 - |f| % 64) % 64;
      assert fed == f + ([0x80] + Repeat<Octet>(0, zeros));
      PutLength();
      assert fed == f + ([0x80] + Repeat<Octet>(0, zeros) + LengthBytes(c));
    }

    /** The eight bytes of the length, most significant first. */
    method PutLength()
      requires Valid()
      modifies this`h, this`count, this`fed, m
      ensures Valid() && fed == old(fed) + LengthBytes(c)
    {
      hide HashBlocks, ByteOf;
      ghost var f := fed;
      for i := 0 to 8
        invariant Valid() && fed == f + LengthBytes(c)[..i]
      {
        PutPad(ByteOf(c, 7 - i));
        assert LengthBytes(c)[..i + 1] == LengthBytes(c)[..i] + [ByteOf(c, 7 - i)];
      }
      assert LengthBytes(c)[..8] == LengthBytes(c);
    }

    /** sha1_loop(): more of the message. */
    method Loop(input: seq<Octet>)
      requires Valid() && Counted()
      modifies this`h, this`count, this`fed, this`c, m
      ensures Valid() && fed == old(fed) + input && Counted()
    {
      hide HashBlocks, Valid;
      ghost var f := fed;
      var off := 0;
      assert f + input[..0] == f;
      while off < |input|
        invariant 0 <= off <= |input| && Valid() && fed == f + input[..off] && Counted()
        decreases |input| - off
      {
        Counts();
        var gap := 64 - count;
        var size := if gap < |input| - off then gap else |input| - off;
        ghost var part := input[off..off + size];
        assert input[..off + size] == input[..off] + part;
        assert f + input[..off + size] == f + input[..off] + part;
        BitCount(c, |fed|, size);
        Copy(part, input, off, size);
        c := (c + size * 8) % 0x1_0000_0000_0000_0000;
        off := off + size;
      }
      assert input[..|input|] == input;
    }

    /** memcpy of part of the input after the bytes in the block */
    method Copy(ghost part: seq<Octet>, input: seq<Octet>, off: nat, size: nat)
      requires Valid() && off + size <= |input| && part == input[off..off + size] && count + size <= 64
      modifies this`h, this`count, this`fed, m
      ensures Valid() && fed == old(fed) + part
    {
      hide HashBlocks;
      ghost var f, k := fed, count;
      for i := 0 to size
        invariant m.Length == 64 && count == k && fed == f && h == old(h) && m[..k + i] == f[|f| - k..] + part[..i]
      {
        m[count + i] := input[off + i];
        assert part[..i + 1] == part[..i] + [part[i]];
        assert m[..k + i + 1] == m[..k + i] + [input[off + i]];
      }
      assert part[..size] == part;
      fed := fed + part;
      count := count + size;
      StepIfFull(f, part);
    }
  }

  lemma ZerosAdd(a: nat, b: nat)
    ensures Repeat<Octet>(0, a) + Repeat<Octet>(0, b) == Repeat<Octet>(0, a + b)
  {
  }

  /** Where the padding byte leaves the block, and how many zeros follow. */
  lemma PadPlaces(n: nat)
    ensures var k, zeros := (n + 1) % 64, (119 - n % 64) % 64;
      if 64 - k < 8 then zeros == (64 - k) + 56 && (n + 1 + (64 - k)) % 64 == 0 else zeros == 64 - k - 8
  {
  }

  lemma BitCount(c: nat, n: nat, k: nat)
    requires c == 8 * n % 0x1_0000_0000_0000_0000
    ensures (c + k * 8) % 0x1_0000_0000_0000_0000 == 8 * (n + k) % 0x1_0000_0000_0000_0000
  {
  }

  /** Whole blocks when a message grows by at most the rest of its last block. */
  lemma Grown(f: seq<Octet>, x: seq<Octet>)
    requires |f| % 64 + |x| <= 64
    ensures var g, k := f + x, |f| % 64 + |x|;
      && (k == 64 ==> g[..|g| - |g| % 64] == g && f[..|f| - |f| % 64] + g[|g| - 64..] == g)
      && (k < 64 ==> g[..|g| - |g| % 64] == f[..|f| - |f| % 64])
  {
    var g, r, k := f + x, |f| % 64, |f| % 64 + |x|;
    Boundary(|f|, |x|);
    if k == 64 {
      assert |g| - 64 == |f| - r;
    } else {
      assert |g| - |g| % 64 == |f| - r;
    }
  }

  lemma Boundary(n: nat, m: nat)
    requires n % 64 + m <= 64
    ensures if n % 64 + m == 64 then (n + m) % 64 == 0 else n + m - (n + m) % 64 == n - n % 64
  {
  }

  // ----- the digest -----

  /** Word w is written at i, most significant octet first. */
  predicate WordAt(d: seq<Octet>, i: nat, w: Word) {
    i + 4 <= |d| && BigEndian(d[i], d[i + 1], d[i + 2], d[i + 3]) == w
  }

  /** The twenty octets that stand for the five words. */
  predicate IsDigest(d: seq<Octet>, h: Chain) {
    |d| == 20 && WordAt(d, 0, h.a) && WordAt(d, 4, h.b) && WordAt(d, 8, h.c) && WordAt(d, 12, h.d) && WordAt(d, 16, h.e)
  }

  /** h.b8[4 * k + i] of a little-endian machine, where w is word k. */
  function InMemory(w: Word, i: nat): Octet
    requires i < 4
  {
    ((if i == 0 then w else if i == 1 then w >> 8 else if i == 2 then w >> 16 else w >> 24) & 0xff) as Octet
  }

  lemma ReadBack(w: Word)
    ensures BigEndian(InMemory(w, 3), InMemory(w, 2), InMemory(w, 1), InMemory(w, 0)) == w
  {
  }

  /** A word has one way to be written. */
  lemma WordDecides(p: Octet, q: Octet, r: Octet, s: Octet, p': Octet, q': Octet, r': Octet, s': Octet)
    requires BigEndian(p, q, r, s) == BigEndian(p', q', r', s')
    ensures p == p' && q == q' && r == r' && s == s'
  {
    Octets(p, q, r, s);
    Octets(p', q', r', s');
  }

  lemma Octets(p: Octet, q: Octet, r: Octet, s: Octet)
    ensures var w := BigEndian(p, q, r, s);
      InMemory(w, 3) == p && InMemory(w, 2) == q && InMemory(w, 1) == r && InMemory(w, 0) == s
  {
  }

  lemma SameWord(d: seq<Octet>, d': seq<Octet>, i: nat, w: Word)
    requires WordAt(d, i, w) && WordAt(d', i, w)
    ensures d[i..i + 4] == d'[i..i + 4]
  {
    hide BigEndian;
    WordDecides(d[i], d[i + 1], d[i + 2], d[i + 3], d'[i], d'[i + 1], d'[i + 2], d'[i + 3]);
  }

  /** No other octets stand for the same words. */
  lemma DigestUnique(d: seq<Octet>, d': seq<Octet>, h: Chain)
    requires IsDigest(d, h) && IsDigest(d', h)
    ensures d == d'
  {
    hide WordAt;
    SameWord(d, d', 0, h.a);
    SameWord(d, d', 4, h.b);
    SameWord(d, d', 8, h.c);
    SameWord(d, d', 12, h.d);
    SameWord(d, d', 16, h.e);
    Cut(d);
    Cut(d');
  }

  lemma Cut(d: seq<Octet>)
    requires |d| == 20
    ensures d == d[0..0 + 4] + d[4..4 + 4] + d[8..8 + 4] + d[12..12 + 4] + d[16..16 + 4]
  {
  }

  /** Four bytes of the digest: d[i] = h.b8[i + 3] and so on. */
  method PutWord(d: seq<Octet>, w: Word) returns (d': seq<Octet>)
    ensures |d'| == |d| + 4 && d <= d' && WordAt(d', |d|, w)
  {
    hide BigEndian, InMemory;
    ReadBack(w);
    d' := d + [InMemory(w, 3), InMemory(w, 2), InMemory(w, 1), InMemory(w, 0)];
  }

  lemma WordStays(d: seq<Octet>, d': seq<Octet>, i: nat, w: Word)
    requires WordAt(d, i, w) && d <= d'
    ensures WordAt(d', i, w)
  {
    hide BigEndian;
  }

  /** The end of sha1_result(). */
  method ReadDigest(h: Chain) returns (digest: seq<Octet>)
    ensures IsDigest(digest, h)
  {
    hide WordAt;
    var d1 := PutWord([], h.a);
    var d2 := PutWord(d1, h.b);
    var d3 := PutWord(d2, h.c);
    var d4 := PutWord(d3, h.d);
    digest := PutWord(d4, h.e);
    WordStays(d1, digest, 0, h.a);
    WordStays(d2, digest, 4, h.b);
    WordStays(d3, digest, 8, h.c);
    WordStays(d4, digest, 12, h.d);
  }

  /** sha1_result(): pad, and read the state's bytes in digest order. */
  method Result(ctx: Context) returns (digest: seq<Octet>)
    requires ctx.Valid() && ctx.Counted() && |ctx.fed| < 0x2000_0000_0000_0000
    modifies ctx`h, ctx`count, ctx`fed, ctx.m
    ensures IsDigest(digest, Sha1Of(old(ctx.fed)))
  {
    hide HashBlocks, LengthBytes, Context.Valid, Repeat, Padding, IsDigest;
    ghost var msg := ctx.fed;
    PaddingIs(msg);
    NoWrap(|msg|);
    ctx.Pad();
    PaddedSize(msg);
    WholeHashed(ctx);
    digest := ReadDigest(ctx.h);
  }

  /** SHA1() of a message given in any pieces. */
  method Digest(pieces: seq<seq<Octet>>) returns (digest: seq<Octet>)
    requires |Joined(pieces)| < 0x2000_0000_0000_0000
    ensures IsDigest(digest, Sha1Of(Joined(pieces)))
  {
    hide HashBlocks, Context.Valid, Context.Counted, Sha1Of, IsDigest;
    var ctx := new Context();
    for i := 0 to |pieces|
      invariant ctx.Valid() && fresh(ctx) && fresh(ctx.m)
      invariant ctx.fed == Joined(pieces[..i]) && ctx.Counted()
    {
      assert pieces[..i + 1][..i] == pieces[..i];
      ctx.Loop(pieces[i]);
    }
    assert pieces[..|pieces|] == pieces;
    digest := Result(ctx);
  }

  lemma NoWrap(n: nat)
    requires n < 0x2000_0000_0000_0000
    ensures 8 * n % 0x1_0000_0000_0000_0000 == 8 * n
  {
  }

  lemma PaddingIs(msg: seq<Octet>)
    ensures Padding(msg) == [0x80] + Repeat<Octet>(0, (119 - |msg| % 64) % 64) + LengthBytes(8 * |msg|)
  {
    hide LengthBytes, Repeat;
  }

  lemma WholeHashed(ctx: Context)
    requires ctx.Valid() && |ctx.fed| % 64 == 0
    ensures ctx.h == HashBlocks(ctx.fed)
  {
    assert ctx.fed[..|ctx.fed|] == ctx.fed;
  }

  function Joined(pieces: seq<seq<Octet>>): seq<Octet> {
    if pieces == [] then [] else Joined(pieces[..|pieces| - 1]) + pieces[|pieces| - 1]
  }
}
