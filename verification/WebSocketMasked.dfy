/** Which frames a receiver gets right: all of them at the server, at the client not all masked ones. */
module WebSocketMasked {
  import opened Bits
  import opened Xors
  import opened Bytes
  import opened WebSocketFrame
  import opened WebSocketReceive
  import opened WebSocketFollow

  /** A receiver that is ready gets this frame right: it delivers its payload and is ready again. */
  ghost predicate Receives(server: bool, closing: bool, limit: nat, r: Rx, f: Frame)
    requires ValidRx(r) && ValidFrame(f)
  {
    var o := Run(server, closing, limit, r, [], Encode(f));
    o.alive && o.r.state == NEW && o.held == [] && Delivers(limit, [f], o.events)
  }

  /** Unmasking from place m of the key on takes the same bytes as masking did from its first. */
  predicate SameFrom(key: seq<Byte>, m: nat)
    requires |key| == 4
  {
    key[m % 4] == key[0] && key[(m + 1) % 4] == key[1] && key[(m + 2) % 4] == key[2] && key[(m + 3) % 4] == key[3]
  }

  // ----- frames that are followed to their end -----

  lemma DeliversSingle(limit: nat, f: Frame, es: seq<Event>)
    ensures Delivers(limit, [f], es) <==> Chunks(limit, f, es) && Concat(es) == f.payload
  {
    hide Chunks, Concat;
    assert [f][..0] == [] && es[..0] == [] && es[0..] == es;
    if Delivers(limit, [f], es) {
      var k :| 0 <= k <= |es| && Delivers(limit, [f][..|[f]| - 1], es[..k]) && Chunks(limit, f, es[k..])
        && Concat(es[k..]) == f.payload;
      assert es[..k] == [];
    }
  }

  lemma FollowedReceives(server: bool, closing: bool, limit: nat, r: Rx, f: Frame)
    requires Followed(server, f) && limit > 0 && ValidRx(r) && r.state == NEW
    ensures Receives(server, closing, limit, r, f) <==> Received(f, if server then 0 else r.maskIndex) == f.payload
  {
    hide Run, Encode, Chunks, Concat, Received, Delivers;
    PartRun(server, closing, limit, r, f, |Encode(f)|, if server then 0 else r.maskIndex);
    assert Encode(f)[..|Encode(f)|] == Encode(f);
    DeliversSingle(limit, f, Run(server, closing, limit, r, [], Encode(f)).events);
  }

  /** Exclusive or can be cancelled. */
  lemma XorCancels(p: Byte, k: Byte, k': Byte)
    ensures XorByte(XorByte(p, k), k') == p <==> k' == k
  {
    hide Xor;
    UnmaskByte(p, k);
    var y := XorByte(p, k);
    XorComm(y, k);
    XorComm(y, k');
    UnmaskByte(k, y);
    UnmaskByte(k', y);
  }

  lemma ReceivedAt(f: Frame, m: nat, i: nat)
    requires |f.key| == 4 && f.masked && i < |f.payload|
    ensures Received(f, m)[i] == f.payload[i] <==> f.key[(m + i) % 4] == f.key[i % 4]
  {
    hide XorByte;
    XorCancels(f.payload[i], f.key[i % 4], f.key[(m + i) % 4]);
  }

  lemma PlaceInKey(m: nat, i: nat)
    ensures (m + i) % 4 == (m + i % 4) % 4
  {
  }

  /** Place i of the key, for any i. */
  lemma SameAt(key: seq<Byte>, m: nat, i: nat)
    requires |key| == 4 && SameFrom(key, m)
    ensures key[(m + i) % 4] == key[i % 4]
  {
    PlaceInKey(m, i);
    var k := i % 4;
    assert k == 0 || k == 1 || k == 2 || k == 3;
  }

  /**
    A masked payload of four bytes or more comes out right exactly when the key looks the same from where
    unmasking starts.
   */
  lemma ReceivedSame(f: Frame, m: nat)
    requires |f.key| == 4 && f.masked && |f.payload| >= 4
    ensures Received(f, m) == f.payload <==> SameFrom(f.key, m)
  {
    hide Received, SameFrom;
    if Received(f, m) == f.payload { KeyIsSame(f, m); }
    if SameFrom(f.key, m) {
      forall i | 0 <= i < |f.payload|
        ensures Received(f, m)[i] == f.payload[i]
      {
        ReceivedAt(f, m, i);
        SameAt(f.key, m, i);
      }
    }
  }

  lemma KeyIsSame(f: Frame, m: nat)
    requires |f.key| == 4 && f.masked && |f.payload| >= 4 && Received(f, m) == f.payload
    ensures SameFrom(f.key, m)
  {
    hide Received;
    ReceivedAt(f, m, 0);
    ReceivedAt(f, m, 1);
    ReceivedAt(f, m, 2);
    ReceivedAt(f, m, 3);
  }

  // ----- short masked frames at the client -----

  /** After n bytes of a short masked frame: the length keeps the mask bit, so 128 bytes too many are waited for. */
  predicate Misled(f: Frame, n: nat, o: Outcome) {
    && o.alive && ValidRx(o.r)
    && if n == 0 then o.r.state == NEW && o.held == []
       else
         && o.r.opcode == f.opcode
         && if n == 1 then o.r.state == HDR_LEN
            else
              && o.r.masked
              && if n < 6 then o.r.state == KEY(n - 2) && o.r.length == 128 + |f.payload|
                 else o.r.state == PAYLOAD && o.r.length == 128 + |f.payload| - (n - 6)
  }

  predicate ShortMasked(f: Frame) {
    ValidFrame(f) && f.masked && IsData(f.opcode) && 0 < |f.payload| < 126
  }

  lemma MisledNext(closing: bool, limit: nat, f: Frame, n: nat, o: Outcome)
    requires ShortMasked(f) && n < |Encode(f)| && Misled(f, n, o)
    ensures var o1 := Next(false, closing, limit, o.r, o.held, Encode(f)[n]);
      Misled(f, n + 1, o1)
  {
    hide XorByte, Encode, Mask, Shl;
    EncodeAt(f, n);
    EncodeSize(f);
    NextValid(false, closing, limit, o.r, o.held, Encode(f)[n]);
  }

  lemma {:induction false} MisledRun(closing: bool, limit: nat, r: Rx, f: Frame, n: nat)
    requires ShortMasked(f) && ValidRx(r) && r.state == NEW && n <= |Encode(f)|
    ensures Misled(f, n, Run(false, closing, limit, r, [], Encode(f)[..n]))
  {
    hide Next, Encode;
    if n > 0 {
      MisledRun(closing, limit, r, f, n - 1);
      assert Encode(f)[..n][..n - 1] == Encode(f)[..n - 1];
      var o := Run(false, closing, limit, r, [], Encode(f)[..n - 1]);
      MisledNext(closing, limit, f, n - 1, o);
      MisledOnly(f, n, Next(false, closing, limit, o.r, o.held, Encode(f)[n - 1]),
        Run(false, closing, limit, r, [], Encode(f)[..n]));
    }
  }

  lemma MisledOnly(f: Frame, n: nat, o: Outcome, o': Outcome)
    requires Misled(f, n, o) && o' == o.(events := o'.events)
    ensures Misled(f, n, o')
  {
  }

  /** A client that was sent a short masked frame is left in the payload, with 128 more bytes to come. */
  lemma ShortIsStuck(closing: bool, limit: nat, r: Rx, f: Frame)
    requires ShortMasked(f) && ValidRx(r) && r.state == NEW
    ensures var o := Run(false, closing, limit, r, [], Encode(f)); o.alive && o.r.state == PAYLOAD && o.r.length == 128
  {
    hide Next, Run, Encode;
    MisledRun(closing, limit, r, f, |Encode(f)|);
    assert Encode(f)[..|Encode(f)|] == Encode(f);
    EncodeSize(f);
  }

  // ----- exactly when -----

  /**
    A ready receiver gets a nonempty data frame right if and only if it is the server, or the frame is not
    masked, or it has an extended length and a key that looks the same from where the client's index is.
   */
  lemma ReceivesWhen(server: bool, closing: bool, limit: nat, r: Rx, f: Frame)
    requires ValidFrame(f) && f.payload != [] && IsData(f.opcode) && limit > 0 && ValidRx(r) && r.state == NEW
    ensures Receives(server, closing, limit, r, f) <==>
      server || !f.masked || (|f.payload| >= 126 && SameFrom(f.key, r.maskIndex))
  {
    hide Run, Encode, Delivers, Received, SameFrom;
    if Followed(server, f) {
      FollowedReceives(server, closing, limit, r, f);
      if server {
        ReceivedWhole(f);
      } else if f.masked {
        ReceivedSame(f, r.maskIndex);
      } else {
        ReceivedPlain(f, r.maskIndex);
      }
    } else {
      ShortIsStuck(closing, limit, r, f);
    }
  }

  // ----- inputs that fail -----

  /** The short frame that fails: the letter A, masked. */
  lemma ShortFails(closing: bool, limit: nat, r: Rx)
    requires limit > 0 && ValidRx(r) && r.state == NEW
    ensures var f := Frame(true, TEXT, true, [1, 2, 3, 4], [65]);
      ValidFrame(f) && Encode(f) == [129, 129, 1, 2, 3, 4, 64] && !Receives(false, closing, limit, r, f)
  {
    hide Receives, XorByte, Encode;
    var f := Frame(true, TEXT, true, [1, 2, 3, 4], [65]);
    ReceivesWhen(false, closing, limit, r, f);
    SixtyFour();
    assert Mask(f.payload, f.key) == [XorByte(65, 1)];
    ShortBytes(f);
  }

  lemma ShortBytes(f: Frame)
    requires ShortMasked(f)
    ensures Encode(f) == [Byte0(f), Byte1(f)] + f.key + Mask(f.payload, f.key)
  {
    hide Mask, Byte0, Byte1;
  }

  lemma SixtyFour()
    ensures XorByte(65, 1) == 64
  {
    assert Xor(16, 0) == 16;
    assert Xor(64, 0) == 64;
  }

  /**
    Two long frames with one key, at a client whose index is still 0: the first comes out right, the second
    does not.
   */
  lemma SecondFails(closing: bool, limit: nat, r: Rx)
    requires limit > 0 && ValidRx(r) && r.state == NEW && r.maskIndex == 0
    ensures var f := Frame(true, BINARY, true, [1, 2, 3, 4], Repeat<Byte>(0, 127));
      var g := Frame(true, BINARY, true, [1, 2, 3, 4], Repeat<Byte>(0, 126));
      && ValidFrame(f) && ValidFrame(g) && Receives(false, closing, limit, r, f)
      && var o := Run(false, closing, limit, r, [], Encode(f));
         o.r.maskIndex == 127 && !Receives(false, closing, limit, o.r, g)
  {
    hide Encode, Run, Received, Receives;
    var f := Frame(true, BINARY, true, [1, 2, 3, 4], Repeat<Byte>(0, 127));
    var g := Frame(true, BINARY, true, [1, 2, 3, 4], Repeat<Byte>(0, 126));
    ReceivesWhen(false, closing, limit, r, f);
    PartRun(false, closing, limit, r, f, |Encode(f)|, 0);
    assert Encode(f)[..|Encode(f)|] == Encode(f);
    var o := Run(false, closing, limit, r, [], Encode(f));
    assert f.key[0] != 0;
    ReceivesWhen(false, closing, limit, o.r, g);
  }
}
