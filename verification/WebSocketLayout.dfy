/** The layout of a frame as section 5.2 of RFC 6455 draws it, told from the bytes alone. */
module WebSocketLayout {
  import opened Bits
  import opened Xors
  import opened Bytes
  import opened WebSocketFrame

  /** The number that the bytes stand for, most significant first. */
  function Number(s: seq<Byte>): nat {
    if s == [] then 0 else 256 * Number(s[..|s| - 1]) + s[|s| - 1]
  }

  /** Where the length ends: it takes the second byte's low seven bits, or two or eight more bytes. */
  function LengthEnd(s: seq<Byte>): nat
    requires |s| >= 2
  {
    if s[1] % 0x80 <= 125 then 2 else if s[1] % 0x80 == 126 then 4 else 10
  }

  /** The length of the payload. */
  function Length(s: seq<Byte>): nat
    requires |s| >= 2 && |s| >= LengthEnd(s)
  {
    if s[1] % 0x80 <= 125 then s[1] % 0x80 else Number(s[2..LengthEnd(s)])
  }

  /** Byte a is byte b changed by the key's byte k: where k has a bit set, a and b differ. */
  ghost predicate Masked(a: Byte, b: Byte, k: Byte) {
    forall i: nat {:trigger Hi(a, i)} :: Hi(a, i) % 2 != Hi(b, i) % 2 <==> Hi(k, i) % 2 == 1
  }

  /** FIN and opcode, mask bit and length in its shortest form, key, payload. */
  ghost predicate Layout(s: seq<Byte>, fin: bool, opcode: nat, masked: bool, key: seq<Byte>, payload: seq<Byte>) {
    && |s| >= 2 && s[0] == opcode + (if fin then 0x80 else 0) && (masked <==> s[1] >= 0x80)
    && |s| >= LengthEnd(s) && Length(s) == |payload|
    && LengthEnd(s) == (if |payload| < 126 then 2 else if |payload| < 0x1_0000 then 4 else 10)
    && var body := LengthEnd(s) + if masked then 4 else 0;
       && |s| == body + |payload|
       && if !masked then s[body..] == payload
          else
            && s[body - 4..body] == key
            && forall i {:trigger payload[i]} :: 0 <= i < |payload| ==> Masked(s[body + i], payload[i], key[i % 4])
  }

  lemma {:induction false} BigEndianLast(n: nat, k: nat)
    requires k > 0
    ensures BigEndian(n, k)[..k - 1] == BigEndian(n / 256, k - 1) && BigEndian(n, k)[k - 1] == n % 256
  {
    hide Lo, Hi, Pow2;
    ByteHalves(n);
    BigEndianAt(n, k, k - 1);
    HiNone(n);
    forall i | 0 <= i < k - 1
      ensures BigEndian(n, k)[i] == BigEndian(n / 256, k - 1)[i]
    {
      BigEndianAt(n, k, i);
      BigEndianAt(n / 256, k - 1, i);
      HiHi(n, 8, 8 * (k - 2 - i));
    }
  }

  lemma HiNone(n: nat)
    ensures Hi(n, 0) == n
  {
  }

  lemma ByteHalves(n: nat)
    ensures Hi(n, 8) == n / 256 && Lo(n, 8) == n % 256
  {
    hide Lo, Hi;
    EightBits();
    Split(n, 8);
    ShlEight(Hi(n, 8));
  }

  /** The bytes of the length stand for it. */
  lemma {:induction false} NumberOf(n: nat, k: nat)
    requires n < Pow2(8 * k)
    ensures Number(BigEndian(n, k)) == n
  {
    hide BigEndian, Pow2;
    if k == 0 {
      NoBits(n);
      assert BigEndian(n, k) == [];
    } else {
      BigEndianLast(n, k);
      PowerOfByte(k);
      NumberOf(n / 256, k - 1);
    }
  }

  lemma NoBits(n: nat)
    requires n < Pow2(0)
    ensures n == 0
  {
  }

  lemma PowerOfByte(k: nat)
    requires k > 0
    ensures Pow2(8 * k) == 256 * Pow2(8 * (k - 1))
  {
    hide Pow2, Shl;
    Pow2Shl(8, 8 * (k - 1));
    Pow2Shl(8 * (k - 1), 8);
    EightBits();
    ShlEight(Pow2(8 * (k - 1)));
  }

  lemma MaskedBits(b: Byte, k: Byte)
    ensures Masked(XorByte(b, k), b, k)
  {
    hide Hi, Xor;
    forall i: nat
      ensures Hi(XorByte(b, k), i) % 2 != Hi(b, i) % 2 <==> Hi(k, i) % 2 == 1
    {
      XorBits(b, k, i);
    }
  }

  lemma LengthFits(f: Frame)
    requires ValidFrame(f)
    ensures |f.payload| >= 126 ==> |f.payload| < Pow2(8 * LenBytes(|f.payload|))
  {
    hide Pow2;
    assert Pow2(16) == 65536 by { TwoBytes(); }
    EightBytes();
  }

  lemma TwoBytes()
    ensures Pow2(16) == 65536
  {
    assert Pow2(8) == 256;
  }

  lemma EightBytes()
    ensures Pow2(64) > 0x8000_0000_0000_0000
  {
    hide Pow2;
    TwoBytes();
    PowerOfByte(3);
    PowerOfByte(4);
    PowerOfByte(5);
    PowerOfByte(6);
    PowerOfByte(7);
    PowerOfByte(8);
  }

  /** A frame's bytes have the layout. */
  lemma HasLayout(f: Frame)
    requires ValidFrame(f)
    ensures Layout(Encode(f), f.fin, f.opcode, f.masked, f.key, f.payload)
  {
    hide BigEndian, Mask, Masked, Number, Pow2, Encode;
    var s, l, n := Encode(f), LenBytes(|f.payload|), |f.payload|;
    EncodeAt(f, 0);
    EncodeAt(f, 1);
    Parts(f);
    LengthFits(f);
    if n >= 126 { NumberOf(n, l); }
    if f.masked {
      forall i {:trigger f.payload[i]} | 0 <= i < n
        ensures Masked(s[HeaderLen(f) + i], f.payload[i], f.key[i % 4])
      {
        EncodeAt(f, HeaderLen(f) + i);
        MaskedAt(f, i);
      }
    }
  }

  lemma MaskedAt(f: Frame, i: nat)
    requires ValidFrame(f) && i < |f.payload|
    ensures Masked(Mask(f.payload, f.key)[i], f.payload[i], f.key[i % 4])
  {
    hide XorByte, Masked;
    MaskedBits(f.payload[i], f.key[i % 4]);
  }

  lemma Parts(f: Frame)
    requires ValidFrame(f)
    ensures var s, l := Encode(f), LenBytes(|f.payload|);
      && s[2..2 + l] == BigEndian(|f.payload|, l)
      && if f.masked then s[2 + l..6 + l] == f.key else s[2 + l..] == f.payload
  {
    hide BigEndian, Mask, Byte0, Byte1;
  }

  // ----- the layout says one frame only -----

  lemma {:induction false} SameNumber(a: Byte, b: Byte, n: nat)
    requires a < Pow2(n) && b < Pow2(n) && forall i: nat {:trigger Hi(a, i)} :: i < n ==> Hi(a, i) % 2 == Hi(b, i) % 2
    ensures a == b
  {
    if n > 0 {
      forall i: nat {:trigger Hi(a / 2, i)} | i < n - 1
        ensures Hi(a / 2, i) % 2 == Hi(b / 2, i) % 2
      {
        assert Hi(a, i + 1) % 2 == Hi(b, i + 1) % 2;
      }
      assert Hi(a, 0) % 2 == Hi(b, 0) % 2;
      SameNumber(a / 2, b / 2, n - 1);
    }
  }

  lemma UnmaskedOnce(a: Byte, b: Byte, c: Byte, k: Byte)
    requires Masked(a, b, k) && Masked(a, c, k)
    ensures b == c
  {
    hide Hi, Pow2;
    EightBits();
    forall i: nat {:trigger Hi(b, i)} | i < 8
      ensures Hi(b, i) % 2 == Hi(c, i) % 2
    {
      var bit := Hi(a, i);
    }
    SameNumber(b, c, 8);
  }

  /** Bytes have one reading: FIN, opcode, mask bit and payload, and the key if masked. */
  lemma OneReading(s: seq<Byte>, f: Frame, g: Frame)
    requires f.opcode < 16 && g.opcode < 16
    requires Layout(s, f.fin, f.opcode, f.masked, f.key, f.payload)
    requires Layout(s, g.fin, g.opcode, g.masked, g.key, g.payload)
    ensures f.fin == g.fin && f.opcode == g.opcode && f.masked == g.masked && f.payload == g.payload
    ensures f.masked ==> f.key == g.key
  {
    hide Masked, Number;
    if f.masked {
      forall i | 0 <= i < |f.payload|
        ensures f.payload[i] == g.payload[i]
      {
        UnmaskedOnce(s[LengthEnd(s) + 4 + i], f.payload[i], g.payload[i], f.key[i % 4]);
      }
    }
  }
}
