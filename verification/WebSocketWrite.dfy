/** libwebsocket_write() for data frames: the header goes in front of the payload, the mask over it. */
module WebSocketWrite {
  import opened Bits
  import opened Bytes
  import opened WebSocketFrame
  import opened WebSocketLayout
  import Xors

  /** Space the caller leaves in front of the payload. */
  const PRE_PADDING: nat := 14

  datatype WriteKind = WriteText | WriteBinary | WriteContinuation

  function Opcode(kind: WriteKind): (op: nat)
    ensures op in {CONTINUATION, TEXT, BINARY}
  {
    match kind
    case WriteText => TEXT
    case WriteBinary => BINARY
    case WriteContinuation => CONTINUATION
  }

  /** A 32-bit int holding x, with wrap-around. */
  function Int32(x: nat): int {
    var y := x % 0x1_0000_0000;
    if y >= 0x8000_0000 then y - 0x1_0000_0000 else y
  }

  /** How many payload bytes the masking loop reaches: it counts from 4 to (int)len + 4. */
  function Reached(len: nat): nat {
    if Int32(len + 4) > 4 then Int32(len + 4) - 4 else 0
  }

  /** Masking of the first n bytes only. */
  function MaskFirst(s: seq<Byte>, key: seq<Byte>, n: nat): (m: seq<Byte>)
    requires |key| == 4
    ensures |m| == |s|
  {
    seq(|s|, i requires 0 <= i < |s| => if i < n then XorByte(s[i], key[i % 4]) else s[i])
  }

  /** The bytes put on the wire. */
  function Wire(f: Frame): (s: seq<Byte>)
    requires ValidFrame(f)
  {
    [Byte0(f), Byte1(f)] + BigEndian(|f.payload|, LenBytes(|f.payload|))
    + if f.masked then f.key + MaskFirst(f.payload, f.key, Reached(|f.payload|)) else f.payload
  }

  /** The bytes before the length or the key. */
  method PutHeader(a: array<Byte>, p: nat, f: Frame)
    requires ValidFrame(f) && p + 2 + LenBytes(|f.payload|) <= a.Length
    modifies a
    ensures a[p..p + 2 + LenBytes(|f.payload|)] == [Byte0(f), Byte1(f)] + BigEndian(|f.payload|, LenBytes(|f.payload|))
    ensures a[..p] == old(a[..p]) && a[p + 2 + LenBytes(|f.payload|)..] == old(a[p + 2 + LenBytes(|f.payload|)..])
  {
    hide Lo, Hi, Pow2, BigEndian;
    var len := |f.payload|;
    a[p] := Byte0(f);
    if len < 126 {
      a[p + 1] := Byte1(f);
      assert BigEndian(len, 0) == [] by { NoLength(len); }
    } else if len < 65536 {
      a[p + 1] := Byte1(f);
      PutLength(a, p + 2, len, 2);
    } else {
      a[p + 1] := Byte1(f);
      PutLength(a, p + 2, len, 8);
    }
  }

  lemma NoLength(len: nat)
    ensures BigEndian(len, 0) == []
  {
  }

  /** The bytes of the length, from the most significant. */
  method PutLength(a: array<Byte>, p: nat, len: nat, k: nat)
    requires p + k <= a.Length
    modifies a
    ensures a[p..p + k] == BigEndian(len, k) && a[..p] == old(a[..p]) && a[p + k..] == old(a[p + k..])
  {
    hide Lo, Hi, Pow2, BigEndian;
    ghost var a0 := a[..];
    for i := 0 to k
      invariant a[..p] == a0[..p] && a[p..p + i] == BigEndian(len, k)[..i] && a[p + i..] == a0[p + i..]
    {
      BigEndianAt(len, k, i);
      EightBits();
      ByteOf(Hi(len, 8 * (k - 1 - i)));
      a[p + i] := Lo(Hi(len, 8 * (k - 1 - i)), 8);
      assert a[p..p + i + 1] == a[p..p + i] + [a[p + i]];
    }
    assert BigEndian(len, k)[..k] == BigEndian(len, k);
  }

  lemma ByteOf(x: nat)
    ensures Lo(x, 8) < 256
  {
    EightBits();
  }

  /** Mask the payload in place. */
  method MaskPayload(a: array<Byte>, at: nat, len: nat, key: seq<Byte>)
    requires at + len <= a.Length && |key| == 4
    modifies a
    ensures a[at..at + len] == MaskFirst(old(a[at..at + len]), key, Reached(len))
    ensures a[..at] == old(a[..at]) && a[at + len..] == old(a[at + len..])
  {
    hide XorByte;
    ReachedBound(len);
    ghost var a0 := a[..];
    var end := Reached(len);
    for i := 0 to end
      invariant forall j {:trigger a[j]} :: 0 <= j < at || at + i <= j < a.Length ==> a[j] == a0[j]
      invariant forall j {:trigger a[j]} :: at <= j < at + i ==> a[j] == XorByte(a0[j], key[(j - at) % 4])
    {
      a[at + i] := XorByte(a[at + i], key[i % 4]);
    }
    ghost var a1 := a[..];
    assert forall j {:trigger a1[j]} :: 0 <= j < at || at + end <= j < |a1| ==> a1[j] == a0[j];
    assert a1[..at] == a0[..at] && a1[at + len..] == a0[at + len..];
    ghost var got, want := a[at..at + len], MaskFirst(a0[at..at + len], key, end);
    forall j {:trigger got[j]} | 0 <= j < len
      ensures got[j] == want[j]
    {
      assert got[j] == a[at + j];
    }
  }

  lemma ReachedBound(len: nat)
    ensures Reached(len) <= len
    ensures Reached(len) == len <==> len < 0x7fff_fffc
  {
  }

  /** The frame that a write of the payload is meant to send. */
  function Sent(client: bool, kind: WriteKind, noFin: bool, nonce: seq<Byte>, payload: seq<Byte>): Frame {
    Frame(!noFin, Opcode(kind), client, nonce, payload)
  }

  /**
    What the bytes say, in the numbers of section 5.2 of RFC 6455: opcode 1 for text, 2 for binary, 0 for a
    continuation, and the top bit for the last frame of a message; and if the masking loop reaches all of the
    payload, they have the layout of a frame throughout.
   */
  ghost predicate Says(s: seq<Byte>, client: bool, kind: WriteKind, noFin: bool, nonce: seq<Byte>, payload: seq<Byte>)
    requires |nonce| == 4
  {
    var opcode := match kind case WriteText => 1 case WriteBinary => 2 case WriteContinuation => 0;
    && |s| >= 2 && s[0] % 0x10 == opcode && s[0] / 0x10 % 8 == 0 && (s[0] >= 0x80 <==> !noFin)
    && (s[1] >= 0x80 <==> client)
    && (!client || ZeroNonce(nonce) || |payload| < 0x7fff_fffc ==> Layout(s, !noFin, opcode, client, nonce, payload))
  }

  lemma WireSays(client: bool, kind: WriteKind, noFin: bool, nonce: seq<Byte>, payload: seq<Byte>)
    requires |nonce| == 4 && |payload| < 0x8000_0000_0000_0000
    ensures var f := Sent(client, kind, noFin, nonce, payload);
      ValidFrame(f) && Says(Wire(f), client, kind, noFin, nonce, payload)
  {
    hide BigEndian, MaskFirst, Layout, ZeroNonce, Encode;
    var f := Sent(client, kind, noFin, nonce, payload);
    WireIsFrame(f);
    HasLayout(f);
  }

  /** libwebsocket_write() of a nonempty payload at a[at..at + len]; what goes out is a[start..at + len]. */
  method Write(client: bool, kind: WriteKind, noFin: bool, nonce: seq<Byte>, a: array<Byte>, at: nat, len: nat)
    returns (start: nat)
    requires PRE_PADDING <= at && at + len <= a.Length && 0 < len < 0x8000_0000_0000_0000 && |nonce| == 4
    modifies a
    ensures start <= at
    ensures var f := Sent(client, kind, noFin, nonce, old(a[at..at + len]));
      ValidFrame(f) && a[start..at + len] == Wire(f)
    ensures Says(a[start..at + len], client, kind, noFin, nonce, old(a[at..at + len]))
    ensures a[..start] == old(a[..start]) && a[at + len..] == old(a[at + len..])
  {
    hide BigEndian, MaskFirst, Byte0, Byte1, Wire, Reached, Says;
    WireSays(client, kind, noFin, nonce, a[at..at + len]);
    var f := Sent(client, kind, noFin, nonce, a[at..at + len]);
    ghost var a0 := a[..];
    var pre := 2 + LenBytes(len) + if client then 4 else 0;
    start := at - pre;
    PutHeader(a, start, f);
    ghost var a1 := a[..];
    assert a1[start + 2 + LenBytes(len)..] == a0[start + 2 + LenBytes(len)..];
    SameTail(a0, a1, start + 2 + LenBytes(len), at, at + len);
    if client {
      MaskPayload(a, at, len, nonce);
      ghost var a2 := a[..];
      PutKey(a, at - 4, nonce);
      Assemble(a1, a2, a[..], start, at, len, nonce);
      WireMasked(f, a1[start..at - 4], a2[at..at + len]);
    } else {
      assert a[start..at + len] == a[start..at] + a[at..at + len];
      WirePlain(f, a[start..at]);
    }
  }

  lemma WireMasked(f: Frame, head: seq<Byte>, body: seq<Byte>)
    requires ValidFrame(f) && f.masked
    requires head == [Byte0(f), Byte1(f)] + BigEndian(|f.payload|, LenBytes(|f.payload|))
    requires body == MaskFirst(f.payload, f.key, Reached(|f.payload|))
    ensures head + f.key + body == Wire(f)
  {
    hide BigEndian, MaskFirst, Byte0, Byte1, Reached;
  }

  lemma WirePlain(f: Frame, head: seq<Byte>)
    requires ValidFrame(f) && !f.masked
    requires head == [Byte0(f), Byte1(f)] + BigEndian(|f.payload|, LenBytes(|f.payload|))
    ensures head + f.payload == Wire(f)
  {
    hide BigEndian, Byte0, Byte1;
  }

  /** memcpy of the nonce in front of the payload */
  method PutKey(a: array<Byte>, p: nat, nonce: seq<Byte>)
    requires |nonce| == 4 && p + 4 <= a.Length
    modifies a
    ensures a[p..p + 4] == nonce && a[..p] == old(a[..p]) && a[p + 4..] == old(a[p + 4..])
  {
    a[p], a[p + 1], a[p + 2], a[p + 3] := nonce[0], nonce[1], nonce[2], nonce[3];
  }

  lemma SameTail(a: seq<Byte>, b: seq<Byte>, p: nat, lo: nat, hi: nat)
    requires |a| == |b| && p <= lo <= hi <= |a| && a[p..] == b[p..]
    ensures a[lo..hi] == b[lo..hi] && a[hi..] == b[hi..]
  {
    SliceOfTail(a, p, lo, hi);
    SliceOfTail(b, p, lo, hi);
  }

  lemma SliceOfTail(a: seq<Byte>, p: nat, lo: nat, hi: nat)
    requires p <= lo <= hi <= |a|
    ensures a[lo..hi] == a[p..][lo - p..hi - p] && a[hi..] == a[p..][hi - p..]
  {
  }

  /** Header, key and payload lie next to each other. */
  lemma Assemble(a1: seq<Byte>, a2: seq<Byte>, a3: seq<Byte>, start: nat, at: nat, len: nat, nonce: seq<Byte>)
    requires |a1| == |a2| == |a3| && start + 4 <= at && at + len <= |a1| && |nonce| == 4
    requires a2[..at] == a1[..at] && a2[at + len..] == a1[at + len..]
    requires a3[at - 4..at] == nonce && a3[..at - 4] == a2[..at - 4] && a3[at..] == a2[at..]
    ensures a3[start..at + len] == a1[start..at - 4] + nonce + a2[at..at + len]
    ensures a3[..start] == a1[..start] && a3[at + len..] == a1[at + len..]
  {
    assert a3[start..at - 4] == a3[..at - 4][start..];
    assert a1[start..at - 4] == a1[..at][start..at - 4];
    assert a2[..at - 4] == a2[..at][..at - 4];
    SameTail(a2, a3, at, at, at + len);
    assert a3[start..at + len] == a3[start..at - 4] + a3[at - 4..at] + a3[at..at + len];
  }

  // ----- when the wire carries the frame -----

  predicate ZeroNonce(key: seq<Byte>) {
    key == [0, 0, 0, 0]
  }

  lemma MaskAll(s: seq<Byte>, key: seq<Byte>, n: nat)
    requires |key| == 4 && n >= |s|
    ensures MaskFirst(s, key, n) == Mask(s, key)
  {
    hide XorByte;
  }

  lemma XorKeyZero(b: Byte, k: Byte)
    ensures XorByte(b, k) == b <==> k == 0
  {
    Xors.XorZero(b);
    if XorByte(b, k) == b { Xors.XorCancel(b, k, 0); }
  }

  /**
    What is sent is the frame of RFC 6455 exactly when it is not masked, the mask is zero, or the
    payload is short enough for the int that counts the masking loop.
   */
  lemma WireIsFrame(f: Frame)
    requires ValidFrame(f)
    ensures Wire(f) == Encode(f) <==> (!f.masked || ZeroNonce(f.key) || |f.payload| < 0x7fff_fffc)
  {
    hide XorByte, BigEndian;
    var len, n := |f.payload|, Reached(|f.payload|);
    ReachedBound(len);
    if f.masked {
      if n == len { MaskAll(f.payload, f.key, n); }
      if ZeroNonce(f.key) {
        forall i | 0 <= i < len
          ensures MaskFirst(f.payload, f.key, n)[i] == Mask(f.payload, f.key)[i]
        {
          XorKeyZero(f.payload[i], f.key[i % 4]);
        }
        assert MaskFirst(f.payload, f.key, n) == Mask(f.payload, f.key);
      } else if n < len {
        UnmaskedTail(f, n);
      }
    }
  }

  /** Some byte that the loop does not reach meets a key byte that is not zero. */
  lemma UnmaskedTail(f: Frame, n: nat)
    requires ValidFrame(f) && f.masked && !ZeroNonce(f.key) && n == Reached(|f.payload|) < |f.payload|
    ensures Wire(f) != Encode(f)
  {
    hide XorByte, BigEndian, Byte0, Byte1;
    ReachedFar(|f.payload|);
    var k :| 0 <= k < 4 && f.key[k] != 0;
    var i := if n % 4 <= k then n - n % 4 + k else n - n % 4 + k + 4;
    assert n <= i < |f.payload| && i % 4 == k;
    XorKeyZero(f.payload[i], f.key[k]);
    var h := 6 + LenBytes(|f.payload|);
    assert Wire(f)[h + i] == MaskFirst(f.payload, f.key, n)[i] == f.payload[i];
    assert Encode(f)[h + i] == Mask(f.payload, f.key)[i];
  }

  lemma ReachedFar(len: nat)
    ensures Reached(len) < len ==> Reached(len) + 8 <= len
  {
  }

  /** The shortest payload that is not masked to its end, with any key that is not zero. */
  lemma LongFails(key: seq<Byte>)
    requires |key| == 4 && !ZeroNonce(key)
    ensures var f := Frame(true, BINARY, true, key, Repeat<Byte>(0, 0x7fff_fffc)); ValidFrame(f) && Wire(f) != Encode(f)
  {
    hide Wire, Encode, ZeroNonce;
    WireIsFrame(Frame(true, BINARY, true, key, Repeat<Byte>(0, 0x7fff_fffc)));
  }
}
