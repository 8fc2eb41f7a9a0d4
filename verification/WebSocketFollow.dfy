/** A receiver that is fed a data frame of its peer, byte by byte, hands out exactly its payload. */
module WebSocketFollow {
  import opened Bits
  import opened Xors
  import opened Bytes
  import opened WebSocketFrame
  import opened WebSocketReceive

  /** A nonempty data frame as the peer sends it: masked towards the server only. */
  predicate FromPeer(server: bool, f: Frame) {
    ValidFrame(f) && f.payload != [] && IsData(f.opcode) && f.masked == server
  }

  /** A nonempty data frame that the receiver follows to its end: for a client, not both masked and short. */
  predicate Followed(server: bool, f: Frame) {
    ValidFrame(f) && f.payload != [] && IsData(f.opcode) && (f.masked && !server ==> |f.payload| >= 126)
  }

  /** What comes out of the payload when unmasking starts at place m0 of the key. */
  function Received(f: Frame, m0: nat): (s: seq<Byte>)
    requires |f.key| == 4
    ensures |s| == |f.payload|
  {
    if f.masked then
      seq(|f.payload|, i requires 0 <= i < |f.payload| => XorByte(Mask(f.payload, f.key)[i], f.key[(m0 + i) % 4]))
    else f.payload
  }

  /** The server starts at the key's first byte, the client where its last masked frame ended. */
  predicate StartsAt(server: bool, r: Rx, m0: nat) {
    if server then m0 == 0 else r.maskIndex == m0
  }

  function Concat(es: seq<Event>): seq<Byte> {
    if es == [] then [] else Concat(es[..|es| - 1]) + EventData(es[|es| - 1])
  }

  lemma {:induction false} ConcatAppend(a: seq<Event>, b: seq<Event>)
    ensures Concat(a + b) == Concat(a) + Concat(b)
    decreases |b|
  {
    if b == [] {
      assert a + b == a;
    } else {
      assert (a + b)[..|a + b| - 1] == a + b[..|b| - 1];
      ConcatAppend(a, b[..|b| - 1]);
    }
  }

  /** A chunk of the frame's payload, labelled as the frame. */
  predicate IsChunk(limit: nat, f: Frame, e: Event) {
    e.Data? && e.opcode == f.opcode && e.fin == f.fin && 0 < |e.data| <= limit
    && (f.opcode in {TEXT, BINARY} ==> e.binary == (f.opcode == BINARY))
  }

  predicate Chunks(limit: nat, f: Frame, es: seq<Event>) {
    forall e {:trigger e in es} :: e in es ==> IsChunk(limit, f, e)
  }

  /** The key bytes seen so far are all zero. */
  predicate ZeroKey(key: seq<Byte>, i: nat)
    requires i <= |key|
  {
    forall j {:trigger key[j]} :: 0 <= j < i ==> key[j] == 0
  }

  /** The length with the last k bits still to come. */
  function Top(len: nat, k: nat): nat {
    Shl(Hi(len, k), k)
  }

  /** Label and masking of the frame are known; the header is not complete. */
  predicate Labelled(server: bool, r: Rx, held: seq<Byte>, f: Frame, given: seq<Byte>) {
    && ValidRx(r) && held == [] && given == [] && r.opcode == f.opcode && r.fin == f.fin
    && (f.opcode in {TEXT, BINARY} ==> r.binary == (f.opcode == BINARY))
  }

  /** Where the receiver is after n bytes of the frame, with `given` of its payload handed out. */
  predicate InHeader(server: bool, r: Rx, held: seq<Byte>, f: Frame, n: nat, given: seq<Byte>, m0: nat)
    requires Followed(server, f)
  {
    var len, l := |f.payload|, LenBytes(|f.payload|);
    if n == 0 then ValidRx(r) && r.state == NEW && held == [] && given == [] && StartsAt(server, r, m0)
    else
      && Labelled(server, r, held, f, given) && StartsAt(server, r, m0)
      && (n <= 2 + l && server ==> r.allZero)
      && (n >= 2 ==> r.masked == f.masked)
      && (n == 1 ==> r.state == HDR_LEN)
      && (2 <= n < 2 + l ==>
            if l == 2 then if n == 2 then r.state == LEN16_2 else r.state == LEN16_1 && r.length == Top(len, 8)
            else r.state == LEN64(10 - n) && (n > 2 ==> r.length == Top(len, 8 * (10 - n))))
      && (2 + l <= n < HeaderLen(f) ==>
            && r.state == KEY(n - 2 - l) && r.length == len
            && r.key[..n - 2 - l] == f.key[..n - 2 - l] && (r.allZero ==> ZeroKey(f.key, n - 2 - l)))
  }

  predicate InPayload(server: bool, limit: nat, r: Rx, held: seq<Byte>, f: Frame, i: nat, given: seq<Byte>, m0: nat)
    requires Followed(server, f) && i <= |f.payload|
  {
    && ValidRx(r) && r.opcode == f.opcode && r.fin == f.fin
    && (f.opcode in {TEXT, BINARY} ==> r.binary == (f.opcode == BINARY))
    && r.state == PAYLOAD && r.length == |f.payload| - i && r.masked == f.masked
    && (server ==> m0 == 0 && (!f.masked ==> r.allZero))
    && (f.masked ==> r.key == f.key && (if r.allZero then ZeroKey(f.key, 4) else r.maskIndex == m0 + i))
    && |held| < limit && given + held == Received(f, m0)[..i]
  }

  predicate Inside(server: bool, limit: nat, r: Rx, held: seq<Byte>, f: Frame, n: nat, given: seq<Byte>, m0: nat)
    requires Followed(server, f) && n < |Encode(f)|
  {
    if n < HeaderLen(f) then InHeader(server, r, held, f, n, given, m0)
    else InPayload(server, limit, r, held, f, n - HeaderLen(f), given, m0)
  }

  /** The frame is complete, and the receiver ready for the next. */
  predicate Complete(server: bool, r: Rx, held: seq<Byte>, f: Frame, given: seq<Byte>, m0: nat)
    requires |f.key| == 4
  {
    && ValidRx(r) && r.state == NEW && held == [] && given == Received(f, m0)
    && (f.masked && !server && !ZeroKey(f.key, 4) ==> r.maskIndex == m0 + |f.payload|)
  }

  // ----- lengths -----

  lemma TopNext(len: nat, k: nat)
    ensures Top(len, k + 8) + Shl(Lo(Hi(len, k), 8), k) == Top(len, k)
  {
    hide Shl, Hi, Lo;
    HiHi(len, k, 8);
    Split(Hi(len, k), 8);
    ShlAdd(Shl(Hi(len, k + 8), 8), Lo(Hi(len, k), 8), k);
    ShlShl(Hi(len, k + 8), 8, k);
  }

  lemma TopAll(len: nat)
    ensures Top(len, 0) == len && Hi(len, 0) == len
  {
  }

  lemma TopNone(len: nat, k: nat)
    requires len < Pow2(k)
    ensures Top(len, k) == 0
  {
    hide Shl, Hi, Pow2;
    LoSmall(len, k);
    ShlOne(k);
  }

  lemma LengthPowers()
    ensures Pow2(7) == 128 && Pow2(16) == 65536 && Pow2(63) == 0x8000_0000_0000_0000 && Pow2(64) == 2 * Pow2(63)
  {
    assert Pow2(7) == 128;
    assert Pow2(15) == 32768;
    assert Pow2(23) == 8388608;
    assert Pow2(31) == 0x8000_0000;
    assert Pow2(39) == 0x80_0000_0000;
    assert Pow2(47) == 0x8000_0000_0000;
    assert Pow2(55) == 0x80_0000_0000_0000;
    assert Pow2(63) == 0x8000_0000_0000_0000;
  }

  /** The most significant byte of a 64-bit length has its top bit clear. */
  lemma FirstLengthByte(len: nat)
    requires len < 0x8000_0000_0000_0000
    ensures Lo(Hi(len, 56), 8) < 128 && Top(len, 64) == 0
  {
    hide Shl, Hi, Lo, Pow2;
    LengthPowers();
    HiBound(len, 56, 7);
    TopNone(len, 64);
    LoAtMost(Hi(len, 56), 8);
  }

  lemma LoAtMost(x: nat, n: nat)
    ensures Lo(x, n) <= x
  {
  }

  // ----- one byte -----

  /** After the n-th byte: further inside, or the frame is complete and the receiver is ready for the next. */
  predicate Advanced(server: bool, limit: nat, o: Outcome, f: Frame, n: nat, given: seq<Byte>, m0: nat)
    requires Followed(server, f) && n < |Encode(f)|
  {
    var given' := given + Concat(o.events);
    && o.alive && Chunks(limit, f, o.events)
    && if n + 1 < |Encode(f)| then Inside(server, limit, o.r, o.held, f, n + 1, given', m0)
       else Complete(server, o.r, o.held, f, given', m0)
  }

  lemma QuietConcat(given: seq<Byte>)
    ensures given + Concat([]) == given
  {
  }

  /** The length is complete. */
  lemma LengthDone(server: bool, closing: bool, limit: nat, r: Rx, held: seq<Byte>, f: Frame, given: seq<Byte>, m0: nat)
    requires Followed(server, f) && limit > 0 && Labelled(server, r, held, f, given) && StartsAt(server, r, m0)
    requires r.masked == f.masked && r.length == |f.payload| && (server ==> r.allZero)
    ensures var n := 1 + LenBytes(|f.payload|);
      n < |Encode(f)| && Advanced(server, limit, AfterLength(server, closing, r, held), f, n, given, m0)
  {
    hide XorByte, Encode, Top, Received;
    QuietConcat(given);
    EncodeSize(f);
    assert r.key[..0] == f.key[..0];
    assert given + held == Received(f, m0)[..0];
  }

  lemma EncodeSize(f: Frame)
    requires ValidFrame(f)
    ensures |Encode(f)| == HeaderLen(f) + |f.payload|
  {
  }

  lemma FirstByte(server: bool, closing: bool, limit: nat, r: Rx, held: seq<Byte>, f: Frame, given: seq<Byte>, m0: nat)
    requires Followed(server, f) && limit > 0 && InHeader(server, r, held, f, 0, given, m0)
    ensures 0 < |Encode(f)| && Advanced(server, limit, Next(server, closing, limit, r, held, Byte0(f)), f, 0, given, m0)
  {
    hide XorByte, Encode, Top, Spill, PayloadByte, AfterLength, AfterKey, LengthByte;
    QuietConcat(given);
    EncodeSize(f);
  }

  lemma SecondByte(server: bool, closing: bool, limit: nat, r: Rx, held: seq<Byte>, f: Frame, given: seq<Byte>, m0: nat)
    requires Followed(server, f) && limit > 0 && InHeader(server, r, held, f, 1, given, m0)
    ensures 1 < |Encode(f)| && Advanced(server, limit, Next(server, closing, limit, r, held, Byte1(f)), f, 1, given, m0)
  {
    hide XorByte, Encode, Top, Spill, PayloadByte, AfterLength, AfterKey;
    QuietConcat(given);
    EncodeSize(f);
    var c := Byte1(f);
    if LenBytes(|f.payload|) == 0 {
      LengthDone(server, closing, limit, r.(masked := c >= 128, length := if server then c % 128 else c), held, f,
        given, m0);
    }
  }

  /** An extended length byte. */
  lemma ExtendedByte(server: bool, closing: bool, limit: nat, r: Rx, held: seq<Byte>, f: Frame, n: nat,
      given: seq<Byte>, m0: nat, c: Byte)
    requires Followed(server, f) && limit > 0 && 2 <= n < 2 + LenBytes(|f.payload|)
      && InHeader(server, r, held, f, n, given, m0)
    requires c == Lo(Hi(|f.payload|, 8 * (LenBytes(|f.payload|) + 1 - n)), 8)
    ensures n < |Encode(f)| && Advanced(server, limit, Next(server, closing, limit, r, held, c), f, n, given, m0)
  {
    hide XorByte, Encode, Spill, PayloadByte, AfterLength, AfterKey, LengthByte, Top, Lo, Hi, Shl, Pow2;
    QuietConcat(given);
    EncodeSize(f);
    var len, l := |f.payload|, LenBytes(|f.payload|);
    TopNext(len, 8 * (l + 1 - n));
    TopAll(len);
    LengthPowers();
    if l == 2 {
      TopNone(len, 16);
      ShlEight(c);
      ShlZero(c);
      if n == 3 { LengthDone(server, closing, limit, r.(length := r.length + c), held, f, given, m0); }
    } else {
      if n == 2 { FirstLengthByte(len); }
      ShlZero(c);
      if n == 9 { LengthDone(server, closing, limit, r.(length := r.length + Shl(c, 0)), held, f, given, m0); }
    }
  }

  lemma KeyPrefix(r: seq<Byte>, key: seq<Byte>, i: nat)
    requires |r| == 4 == |key| && i < 4 && r[..i] == key[..i]
    ensures r[i := key[i]][..i + 1] == key[..i + 1]
    ensures ZeroKey(key, i + 1) <==> ZeroKey(key, i) && key[i] == 0
  {
    assert key[..i + 1] == key[..i] + [key[i]];
  }

  /** A byte of the masking key. */
  lemma KeyByte(server: bool, closing: bool, limit: nat, r: Rx, held: seq<Byte>, f: Frame, n: nat, given: seq<Byte>,
      m0: nat)
    requires Followed(server, f) && limit > 0 && 2 + LenBytes(|f.payload|) <= n < HeaderLen(f)
      && InHeader(server, r, held, f, n, given, m0)
    ensures n < |Encode(f)|
      && Advanced(server, limit, Next(server, closing, limit, r, held, f.key[n - 2 - LenBytes(|f.payload|)]), f, n,
        given, m0)
  {
    hide XorByte, Encode, Spill, PayloadByte, AfterLength, AfterKey, LengthByte, Top, Shl, ZeroKey, Inside;
    QuietConcat(given);
    EncodeSize(f);
    NoChunks(limit, f);
    var i := n - 2 - LenBytes(|f.payload|);
    var r1 := r.(key := r.key[i := f.key[i]], allZero := r.allZero && f.key[i] == 0);
    KeyPrefix(r.key, f.key, i);
    if i < 3 {
      InKey(server, r, held, f, n, given, m0, r1.(state := KEY(i + 1)));
      InHeaderInside(server, limit, r1.(state := KEY(i + 1)), held, f, n + 1, given, m0);
    } else {
      KeyDone(server, closing, limit, r1, held, f, given, m0);
    }
  }

  /** Another key byte to come. */
  lemma InKey(server: bool, r: Rx, held: seq<Byte>, f: Frame, n: nat, given: seq<Byte>, m0: nat, r': Rx)
    requires Followed(server, f) && 2 + LenBytes(|f.payload|) <= n < HeaderLen(f) - 1
      && InHeader(server, r, held, f, n, given, m0)
    requires r' == r.(key := r'.key, allZero := r'.allZero, state := KEY(n - 1 - LenBytes(|f.payload|)))
      && |r'.key| == 4
    requires r'.key[..n - 1 - LenBytes(|f.payload|)] == f.key[..n - 1 - LenBytes(|f.payload|)]
    requires r'.allZero ==> ZeroKey(f.key, n - 1 - LenBytes(|f.payload|))
    ensures InHeader(server, r', held, f, n + 1, given, m0)
  {
    hide Encode, Top, ZeroKey;
  }

  lemma InHeaderInside(server: bool, limit: nat, r: Rx, held: seq<Byte>, f: Frame, n: nat, given: seq<Byte>, m0: nat)
    requires Followed(server, f) && n < HeaderLen(f) && InHeader(server, r, held, f, n, given, m0)
    ensures n < |Encode(f)| && Inside(server, limit, r, held, f, n, given, m0)
  {
    hide InHeader, Encode;
    EncodeSize(f);
  }

  /** The key is complete: the payload comes next. */
  lemma KeyDone(server: bool, closing: bool, limit: nat, r1: Rx, held: seq<Byte>, f: Frame, given: seq<Byte>, m0: nat)
    requires Followed(server, f) && limit > 0 && |r1.key| == 4 && Labelled(server, r1.(state := KEY(3)), held, f, given)
    requires r1.masked && r1.length == |f.payload| && r1.key[..4] == f.key[..4] && (r1.allZero ==> ZeroKey(f.key, 4))
      && StartsAt(server, r1, m0)
    requires f.masked
    ensures HeaderLen(f) < |Encode(f)|
    ensures var o := AfterKey(server, closing, r1, held);
      o.alive && o.events == [] && Inside(server, limit, o.r, o.held, f, HeaderLen(f), given, m0)
  {
    hide Encode, Spill, ZeroKey, Received;
    EncodeSize(f);
    assert f.key[..4] == f.key && r1.key[..4] == r1.key && given + held == Received(f, m0)[..0];
  }

  lemma ZeroMask(b: Byte, k: Byte)
    ensures k == 0 ==> XorByte(b, k) == b
  {
    XorZero(b);
  }

  /** From the key's first byte on, unmasking undoes masking. */
  lemma ReceivedWhole(f: Frame)
    requires |f.key| == 4
    ensures Received(f, 0) == f.payload
  {
    hide XorByte;
    if f.masked {
      forall i | 0 <= i < |f.payload|
        ensures Received(f, 0)[i] == f.payload[i]
      {
        UnmaskByte(f.payload[i], f.key[i % 4]);
      }
    }
  }

  /** What the receiver makes of payload byte i. */
  lemma Unmasked(server: bool, limit: nat, r: Rx, held: seq<Byte>, f: Frame, i: nat, given: seq<Byte>, m0: nat, c: Byte)
    requires Followed(server, f) && i < |f.payload| && InPayload(server, limit, r, held, f, i, given, m0)
    requires c == if f.masked then Mask(f.payload, f.key)[i] else f.payload[i]
    ensures (if r.allZero || (!server && !r.masked) then c else XorByte(c, r.key[r.maskIndex % 4])) ==
      Received(f, m0)[i]
  {
    hide XorByte, Mask;
    ZeroMask(c, f.key[(m0 + i) % 4]);
  }

  lemma SpillData(server: bool, closing: bool, limit: nat, r: Rx, held: seq<Byte>, f: Frame)
    requires IsData(f.opcode) && r.opcode == f.opcode && r.fin == f.fin && 0 < |held| <= limit
    requires f.opcode in {TEXT, BINARY} ==> r.binary == (f.opcode == BINARY)
    ensures var o := Spill(server, closing, r, held);
      o.r == r && o.held == [] && o.alive && Concat(o.events) == held && Chunks(limit, f, o.events)
  {
    var e := Data(r.opcode, r.fin, r.binary, held);
    assert [e][..0] == [] && Concat([e]) == Concat([]) + held;
  }

  lemma PayloadAdvances(server: bool, closing: bool, limit: nat, r: Rx, held: seq<Byte>, f: Frame, i: nat,
      given: seq<Byte>, m0: nat, c: Byte)
    requires Followed(server, f) && i < |f.payload| && InPayload(server, limit, r, held, f, i, given, m0)
    requires c == if f.masked then Mask(f.payload, f.key)[i] else f.payload[i]
    ensures var o := PayloadByte(server, closing, limit, r, held, c);
      && o.alive && Chunks(limit, f, o.events)
      && if i + 1 < |f.payload| then InPayload(server, limit, o.r, o.held, f, i + 1, given + Concat(o.events), m0)
         else Complete(server, o.r, o.held, f, given + Concat(o.events), m0)
  {
    hide XorByte, Mask, Spill, Chunks, Received;
    Unmasked(server, limit, r, held, f, i, given, m0, c);
    var plain := r.allZero || (!server && !r.masked);
    var all := Received(f, m0);
    var held1 := held + [all[i]];
    var r1 := r.(length := Decrement(r.length), maskIndex := if plain then r.maskIndex else r.maskIndex + 1);
    assert all[..i + 1] == all[..i] + [all[i]] == given + held1;
    assert all[..|all|] == all;
    QuietConcat(given);
    NoChunks(limit, f);
    SpillData(server, closing, limit, r1.(state := NEW), held1, f);
    SpillData(server, closing, limit, r1, held1, f);
  }

  lemma NoChunks(limit: nat, f: Frame)
    ensures Chunks(limit, f, [])
  {
  }

  /** The next byte of the frame, wherever the receiver is. */
  lemma OneByte(server: bool, closing: bool, limit: nat, r: Rx, held: seq<Byte>, f: Frame, n: nat, given: seq<Byte>,
      m0: nat)
    requires Followed(server, f) && limit > 0 && n < |Encode(f)| && Inside(server, limit, r, held, f, n, given, m0)
    ensures ValidRx(r) && Advanced(server, limit, Next(server, closing, limit, r, held, Encode(f)[n]), f, n, given, m0)
  {
    hide XorByte, Encode, PayloadByte, AfterLength, AfterKey, LengthByte, Chunks, BigEndian, Mask, Lo, Hi, Byte0, Byte1,
      Labelled, Advanced;
    EncodeAt(f, n);
    EncodeSize(f);
    InsideValid(server, limit, r, held, f, n, given, m0);
    var l := LenBytes(|f.payload|);
    if n == 0 {
      FirstByte(server, closing, limit, r, held, f, given, m0);
    } else if n == 1 {
      SecondByte(server, closing, limit, r, held, f, given, m0);
    } else if n < 2 + l {
      BigEndianAt(|f.payload|, l, n - 2);
      ExtendedByte(server, closing, limit, r, held, f, n, given, m0, Encode(f)[n]);
    } else if n < HeaderLen(f) {
      KeyByte(server, closing, limit, r, held, f, n, given, m0);
    } else {
      PayloadByteAdvanced(server, closing, limit, r, held, f, n, given, m0);
    }
  }

  lemma InsideValid(server: bool, limit: nat, r: Rx, held: seq<Byte>, f: Frame, n: nat, given: seq<Byte>, m0: nat)
    requires Followed(server, f) && n < |Encode(f)| && Inside(server, limit, r, held, f, n, given, m0)
    ensures ValidRx(r)
  {
    hide Encode, Top;
  }

  lemma PayloadByteAdvanced(server: bool, closing: bool, limit: nat, r: Rx, held: seq<Byte>, f: Frame, n: nat,
      given: seq<Byte>, m0: nat)
    requires Followed(server, f) && limit > 0 && HeaderLen(f) <= n < |Encode(f)|
      && Inside(server, limit, r, held, f, n, given, m0)
    ensures ValidRx(r) && Advanced(server, limit, Next(server, closing, limit, r, held, Encode(f)[n]), f, n, given, m0)
  {
    hide XorByte, Encode, PayloadByte, AfterLength, AfterKey, LengthByte, Chunks, BigEndian, Mask, InHeader;
    EncodeAt(f, n);
    EncodeSize(f);
    PayloadAdvances(server, closing, limit, r, held, f, n - HeaderLen(f), given, m0, Encode(f)[n]);
  }

  // ----- frames -----

  lemma {:induction false} RunAppend(server: bool, closing: bool, limit: nat, r: Rx, held: seq<Byte>, a: seq<Byte>,
      b: seq<Byte>)
    requires ValidRx(r)
    ensures var o := Run(server, closing, limit, r, held, a);
      Run(server, closing, limit, r, held, a + b) ==
        if !o.alive then o
        else var o1 := Run(server, closing, limit, o.r, o.held, b); o1.(events := o.events + o1.events)
    decreases |b|
  {
    hide Next;
    if b == [] {
      assert a + b == a;
      var o := Run(server, closing, limit, r, held, a);
      assert o.events + [] == o.events;
    } else {
      assert (a + b)[..|a + b| - 1] == a + b[..|b| - 1];
      RunAppend(server, closing, limit, r, held, a, b[..|b| - 1]);
      var o := Run(server, closing, limit, r, held, a);
      if o.alive {
        var o1 := Run(server, closing, limit, o.r, o.held, b[..|b| - 1]);
        if o1.alive {
          var o2 := Next(server, closing, limit, o1.r, o1.held, b[|b| - 1]);
          assert o.events + o1.events + o2.events == o.events + (o1.events + o2.events);
        }
      }
    }
  }

  /** After n bytes of a frame. */
  predicate After(server: bool, limit: nat, o: Outcome, f: Frame, n: nat, m0: nat)
    requires Followed(server, f) && n <= |Encode(f)|
  {
    && o.alive && Chunks(limit, f, o.events)
    && if n < |Encode(f)| then Inside(server, limit, o.r, o.held, f, n, Concat(o.events), m0)
       else Complete(server, o.r, o.held, f, Concat(o.events), m0)
  }

  lemma {:induction false} PartRun(server: bool, closing: bool, limit: nat, r: Rx, f: Frame, n: nat, m0: nat)
    requires Followed(server, f) && limit > 0 && ValidRx(r) && r.state == NEW && n <= |Encode(f)|
      && StartsAt(server, r, m0)
    ensures After(server, limit, Run(server, closing, limit, r, [], Encode(f)[..n]), f, n, m0)
  {
    hide Next, Encode, Inside, Chunks;
    var s := Encode(f);
    if n == 0 {
      Starts(server, limit, r, f, m0);
    } else {
      PartRun(server, closing, limit, r, f, n - 1, m0);
      var o := Run(server, closing, limit, r, [], s[..n - 1]);
      OneByte(server, closing, limit, o.r, o.held, f, n - 1, Concat(o.events), m0);
      assert s[..n][..n - 1] == s[..n - 1];
      var o1 := Next(server, closing, limit, o.r, o.held, s[n - 1]);
      ConcatAppend(o.events, o1.events);
      ChunksAppend(limit, f, o.events, o1.events);
    }
  }

  lemma Starts(server: bool, limit: nat, r: Rx, f: Frame, m0: nat)
    requires Followed(server, f) && limit > 0 && ValidRx(r) && r.state == NEW && StartsAt(server, r, m0)
    ensures 0 < |Encode(f)| && Inside(server, limit, r, [], f, 0, Concat([]), m0) && Chunks(limit, f, [])
  {
    hide Encode;
    EncodeSize(f);
  }

  lemma ChunksAppend(limit: nat, f: Frame, a: seq<Event>, b: seq<Event>)
    requires Chunks(limit, f, a) && Chunks(limit, f, b)
    ensures Chunks(limit, f, a + b)
  {
    hide IsChunk;
  }

  /** One whole frame of the peer. */
  lemma PeerRun(server: bool, closing: bool, limit: nat, r: Rx, f: Frame)
    requires FromPeer(server, f) && limit > 0 && ValidRx(r) && r.state == NEW
    ensures var o := Run(server, closing, limit, r, [], Encode(f));
      && o.alive && Chunks(limit, f, o.events) && Concat(o.events) == f.payload
      && ValidRx(o.r) && o.r.state == NEW && o.held == []
  {
    hide Next, Run, Encode, Inside, Chunks, Concat, Received;
    PartRun(server, closing, limit, r, f, |Encode(f)|, if server then 0 else r.maskIndex);
    assert Encode(f)[..|Encode(f)|] == Encode(f);
    if server { ReceivedWhole(f); } else { ReceivedPlain(f, r.maskIndex); }
  }

  lemma ReceivedPlain(f: Frame, m0: nat)
    requires |f.key| == 4 && !f.masked
    ensures Received(f, m0) == f.payload
  {
  }

  /** The events are the frames in order: each frame's chunks are labelled as it is and make up its payload. */
  ghost predicate Delivers(limit: nat, fs: seq<Frame>, es: seq<Event>) {
    if fs == [] then es == []
    else exists k {:trigger es[..k]} :: (
      && 0 <= k <= |es| && Delivers(limit, fs[..|fs| - 1], es[..k])
      && Chunks(limit, fs[|fs| - 1], es[k..]) && Concat(es[k..]) == fs[|fs| - 1].payload)
  }

  predicate AllFromPeer(server: bool, fs: seq<Frame>) {
    forall i {:trigger fs[i]} :: 0 <= i < |fs| ==> FromPeer(server, fs[i])
  }

  /** Any sequence of the peer's data frames is received as sent. */
  lemma {:induction false} FramesRun(server: bool, closing: bool, limit: nat, r: Rx, fs: seq<Frame>)
    requires AllFromPeer(server, fs) && limit > 0 && ValidRx(r) && r.state == NEW
    ensures AllValid(fs)
    ensures var o := Run(server, closing, limit, r, [], EncodeAll(fs));
      o.alive && ValidRx(o.r) && o.r.state == NEW && o.held == [] && Delivers(limit, fs, o.events)
    decreases |fs|
  {
    hide Next, Encode, Inside, Chunks, Concat;
    assert AllValid(fs);
    if fs != [] {
      var before, f := fs[..|fs| - 1], fs[|fs| - 1];
      assert FromPeer(server, f);
      FramesRun(server, closing, limit, r, before);
      var o := Run(server, closing, limit, r, [], EncodeAll(before));
      RunAppend(server, closing, limit, r, [], EncodeAll(before), Encode(f));
      PeerRun(server, closing, limit, o.r, f);
      var o1 := Run(server, closing, limit, o.r, [], Encode(f));
      var es, k := o.events + o1.events, |o.events|;
      assert es[..k] == o.events && es[k..] == o1.events;
    }
  }
}
