/** The rolling hash of three bytes. */
module DeflateHash {
  import opened Bits
  import opened Xors
  import opened Bytes

  /** hash_bits and hash_shift; after three updates the oldest byte has left the key. */
  datatype Hash = Hash(bits: nat, shift: nat)

  predicate IsHash(p: Hash) {
    8 <= p.bits <= 3 * p.shift
  }

  /** UPDATE_HASH */
  function Update(p: Hash, h: nat, c: Byte): (r: nat)
    ensures r < Pow2(p.bits)
  {
    Lo(Xor(Shl(h, p.shift), c), p.bits)
  }

  /** The key of three bytes. */
  function Key(p: Hash, a: Byte, b: Byte, c: Byte): (r: nat)
    ensures r < Pow2(p.bits)
  {
    Update(p, Update(p, a, b), c)
  }

  /** h is ready for the update that completes the key of a string starting with a and b. */
  ghost predicate Primed(p: Hash, h: nat, a: Byte, b: Byte) {
    forall c: Byte :: Update(p, h, c) == Key(p, a, b, c)
  }

  /** Masking before a shift does not matter after it. */
  lemma UpdateLo(p: Hash, h: nat, c: Byte)
    ensures Update(p, Lo(h, p.bits), c) == Update(p, h, c)
  {
    hide Xor, Lo, Shl;
    ShlLo(h, p.shift, p.bits);
    XorLo(Shl(h, p.shift), c, p.bits);
    XorLo(Shl(Lo(h, p.bits), p.shift), c, p.bits);
  }

  lemma ShlLo(h: nat, s: nat, n: nat)
    ensures Lo(Shl(Lo(h, n), s), n) == Lo(Shl(h, s), n)
  {
    hide Lo, Shl, Hi;
    Split(h, n);
    ShlAdd(Shl(Hi(h, n), n), Lo(h, n), s);
    ShlShl(Hi(h, n), n, s);
    ShlShl(Hi(h, n), s, n);
    AddAbove(Shl(Lo(h, n), s), Shl(Hi(h, n), s), n, n);
  }

  /** An update without the mask. */
  function Mix(p: Hash, h: nat, c: nat): nat {
    Xor(Shl(h, p.shift), c)
  }

  lemma UpdateMix(p: Hash, y: nat, c: Byte)
    ensures Update(p, Lo(y, p.bits), c) == Lo(Mix(p, y, c), p.bits)
  {
    UpdateLo(p, y, c);
  }

  lemma MixXor(p: Hash, u: nat, v: nat, c: nat)
    ensures Mix(p, Xor(u, v), c) == Xor(Shl(u, p.shift), Mix(p, v, c))
  {
    hide Xor, Shl;
    XorShl(u, v, p.shift);
    XorAssoc(Shl(u, p.shift), Shl(v, p.shift), c);
  }

  /** The oldest byte leaves the key: what was hashed before the three bytes is irrelevant. */
  lemma Forgets(p: Hash, x: nat, a: Byte, b: Byte, c: Byte)
    requires IsHash(p)
    ensures Update(p, Update(p, Update(p, x, a), b), c) == Key(p, a, b, c)
  {
    var s, n := p.shift, p.bits;
    UpdateMix(p, Mix(p, x, a), b);
    UpdateMix(p, Mix(p, Mix(p, x, a), b), c);
    UpdateMix(p, Mix(p, a, b), c);
    MixXor(p, Shl(x, s), a, b);
    MixXor(p, Shl(Shl(x, s), s), Mix(p, a, b), c);
    hide Xor, Lo, Shl;
    ShlShl(x, s, s);
    ShlShl(x, 2 * s, s);
    ShlShl(x, 3 * s - n, n);
    var y := Mix(p, Mix(p, a, b), c);
    Join(Shl(x, 3 * s - n), 0, n);
    XorLo(Shl(x, 3 * s), y, n);
    XorZero(Lo(y, n));
  }

  /** After the update for a string its key is ready for the next string. */
  lemma KeyPrimes(p: Hash, a: Byte, b: Byte, c: Byte)
    requires IsHash(p)
    ensures Primed(p, Key(p, a, b, c), b, c)
  {
    hide Update;
    forall d: Byte
      ensures Update(p, Key(p, a, b, c), d) == Key(p, b, c, d)
    {
      Forgets(p, a, b, c, d);
    }
  }

  /** Starting afresh: the first byte unmasked, one update. */
  lemma StartPrimes(p: Hash, a: Byte, b: Byte)
    ensures Primed(p, Update(p, a, b), a, b)
  {
  }

  /** Equal keys and equal first two bytes leave no choice for the third. */
  lemma ThirdByte(p: Hash, a: Byte, b: Byte, c: Byte, d: Byte)
    requires IsHash(p) && Key(p, a, b, c) == Key(p, a, b, d)
    ensures c == d
  {
    hide Xor, Lo, Shl, Pow2;
    var h := Shl(Update(p, a, b), p.shift);
    XorLo(h, c, p.bits);
    XorLo(h, d, p.bits);
    XorCancel(Lo(h, p.bits), Lo(c, p.bits), Lo(d, p.bits));
    Pow2Mono(8, p.bits);
    Pow2Eight();
    LoSmall(c, p.bits);
    LoSmall(d, p.bits);
  }

  lemma Pow2Eight()
    ensures Pow2(8) == 256
  {
    assert Pow2(4) == 16;
  }
}
