/** Frames of sections 5.2 and 5.3 of RFC 6455 on the wire. */
module WebSocketFrame {
  import opened Bits
  import opened Xors
  import opened Bytes

  /** A frame; key is used only when masked. */
  datatype Frame = Frame(fin: bool, opcode: nat, masked: bool, key: seq<Byte>, payload: seq<Byte>)

  const CONTINUATION: nat := 0
  const TEXT: nat := 1
  const BINARY: nat := 2
  const CLOSE: nat := 8
  const PING: nat := 9
  const PONG: nat := 10

  predicate IsData(opcode: nat) {
    opcode in {CONTINUATION, TEXT, BINARY}
  }

  predicate ValidFrame(f: Frame) {
    f.opcode < 16 && |f.key| == 4 && |f.payload| < 0x8000_0000_0000_0000
  }

  /** Bytes of the extended length. */
  function LenBytes(n: nat): nat {
    if n < 126 then 0 else if n < 65536 then 2 else 8
  }

  /** The 7-bit length field. */
  function LenField(n: nat): nat {
    if n < 126 then n else if n < 65536 then 126 else 127
  }

  /** The k low bytes of n, most significant first. */
  function BigEndian(n: nat, k: nat): (s: seq<Byte>)
    ensures |s| == k
  {
    if k == 0 then []
    else
      EightBits();
      [Lo(Hi(n, 8 * (k - 1)), 8)] + BigEndian(n, k - 1)
  }

  lemma EightBits()
    ensures Pow2(8) == 256
  {
    assert Pow2(4) == 16;
  }

  lemma {:induction false} BigEndianAt(n: nat, k: nat, i: nat)
    requires i < k
    ensures BigEndian(n, k)[i] == Lo(Hi(n, 8 * (k - 1 - i)), 8)
  {
    hide Lo, Hi, Pow2;
    if i > 0 { BigEndianAt(n, k - 1, i - 1); }
  }

  function XorByte(a: Byte, b: Byte): Byte {
    EightBits();
    XorBound(a, b, 8);
    Xor(a, b)
  }

  /** Masking with the key, cyclically. */
  function Mask(s: seq<Byte>, key: seq<Byte>): (m: seq<Byte>)
    requires |key| == 4
    ensures |m| == |s|
  {
    seq(|s|, i requires 0 <= i < |s| => XorByte(s[i], key[i % 4]))
  }

  lemma UnmaskByte(a: Byte, k: Byte)
    ensures XorByte(XorByte(a, k), k) == a
  {
    hide Xor;
    XorAssoc(a, k, k);
    XorSelf(k);
    XorZero(a);
  }

  function Byte0(f: Frame): Byte
    requires ValidFrame(f)
  {
    f.opcode + if f.fin then 128 else 0
  }

  function Byte1(f: Frame): Byte {
    LenField(|f.payload|) + if f.masked then 128 else 0
  }

  function HeaderLen(f: Frame): nat {
    2 + LenBytes(|f.payload|) + if f.masked then 4 else 0
  }

  function Encode(f: Frame): (s: seq<Byte>)
    requires ValidFrame(f)
    ensures |s| == HeaderLen(f) + |f.payload|
  {
    [Byte0(f), Byte1(f)] + BigEndian(|f.payload|, LenBytes(|f.payload|))
    + if f.masked then f.key + Mask(f.payload, f.key) else f.payload
  }

  /** The n-th byte of a frame. */
  lemma EncodeAt(f: Frame, n: nat)
    requires ValidFrame(f) && n < |Encode(f)|
    ensures var s, l := Encode(f), LenBytes(|f.payload|);
      && (n == 0 ==> s[n] == Byte0(f)) && (n == 1 ==> s[n] == Byte1(f))
      && (2 <= n < 2 + l ==> s[n] == BigEndian(|f.payload|, l)[n - 2])
      && (f.masked && 2 + l <= n < 6 + l ==> s[n] == f.key[n - 2 - l])
      && (n >= HeaderLen(f) ==>
          s[n] == if f.masked then Mask(f.payload, f.key)[n - HeaderLen(f)] else f.payload[n - HeaderLen(f)])
  {
    hide BigEndian, Mask, Byte0, Byte1;
  }

  predicate AllValid(fs: seq<Frame>) {
    forall i {:trigger fs[i]} :: 0 <= i < |fs| ==> ValidFrame(fs[i])
  }

  function EncodeAll(fs: seq<Frame>): seq<Byte>
    requires AllValid(fs)
  {
    if fs == [] then [] else EncodeAll(fs[..|fs| - 1]) + Encode(fs[|fs| - 1])
  }
}
