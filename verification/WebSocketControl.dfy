/** What a receiver answers to control and empty frames, and how it labels the chunks of a frame. */
module WebSocketControl {
  import opened Bits
  import opened Bytes
  import opened WebSocketFrame
  import opened WebSocketReceive
  import opened WebSocketFollow

  /** A frame of the peer that is not data: a close, ping or pong, another opcode, or an empty frame. */
  predicate NotData(server: bool, limit: nat, f: Frame) {
    ValidFrame(f) && |f.payload| < 126 && |f.payload| <= limit && f.masked == server
    && (f.opcode in {0, 1, 2} ==> f.payload == [])
  }

  /** The answer: a close is sent back once, a ping comes back as a pong, the client's user sees pongs. */
  function Answer(server: bool, closing: bool, f: Frame): seq<Event> {
    if f.opcode == 8 && !closing then [SendClose(f.payload)]
    else if f.opcode == 9 then [SendPong(f.payload)]
    else if f.opcode == 10 && !server && f.payload != [] then [GotPong(f.payload)]
    else []
  }

  /** After n bytes of such a frame, but not all: nothing has been answered yet. */
  predicate Underway(server: bool, limit: nat, f: Frame, n: nat, o: Outcome)
    requires ValidFrame(f)
  {
    var h := HeaderLen(f);
    && o.alive && o.events == [] && ValidRx(o.r)
    && if n == 0 then o.r.state == NEW && o.held == []
       else
         && o.r.opcode == f.opcode
         && if n == 1 then o.r.state == HDR_LEN && o.held == [] && (server ==> o.r.allZero)
            else
              && o.r.masked == f.masked
              && if n < h then
                   && o.r.state == KEY(n - 2) && o.held == [] && o.r.length == |f.payload|
                   && o.r.key[..n - 2] == f.key[..n - 2] && (o.r.allZero ==> ZeroKey(f.key, n - 2))
                 else
                   && o.r.state == PAYLOAD && o.r.length == |f.payload| - (n - h) && o.held == f.payload[..n - h]
                   && (f.masked ==> o.r.key == f.key && (o.r.allZero ==> ZeroKey(f.key, 4)))
                   && (f.masked && !o.r.allZero ==> o.r.maskIndex == n - h)
  }

  /** After all bytes: answered; a server that got no payload byte is left in the payload state. */
  predicate Answered(server: bool, closing: bool, f: Frame, o: Outcome) {
    && o.events == Answer(server, closing, f)
    && (f.opcode == 8 <==> !o.alive)
    && (o.alive ==>
          o.held == [] && o.r.length == 0 && o.r.state == (if server && f.payload == [] then PAYLOAD else NEW))
  }

  predicate At(server: bool, closing: bool, limit: nat, f: Frame, n: nat, o: Outcome)
    requires ValidFrame(f)
  {
    if n < HeaderLen(f) + |f.payload| then Underway(server, limit, f, n, o) else Answered(server, closing, f, o)
  }

  lemma SpillAnswers(server: bool, closing: bool, limit: nat, r: Rx, f: Frame)
    requires NotData(server, limit, f) && r.opcode == f.opcode
    ensures var o := Spill(server, closing, r, f.payload);
      o.r == r && o.events == Answer(server, closing, f) && if f.opcode == 8 then !o.alive else o.alive && o.held == []
  {
  }

  lemma NoneZero(key: seq<Byte>)
    ensures ZeroKey(key, 0)
  {
  }

  lemma StartNext(server: bool, closing: bool, limit: nat, f: Frame, n: nat, o: Outcome)
    requires NotData(server, limit, f) && n < 2 && Underway(server, limit, f, n, o) && limit > 0
    ensures n < |Encode(f)|
      && At(server, closing, limit, f, n + 1, Next(server, closing, limit, o.r, o.held, Encode(f)[n]))
  {
    hide XorByte, Mask, Shl, Spill, Encode, Answer, ZeroKey, AfterKey, PayloadByte;
    EncodeAt(f, n);
    EncodeSize(f);
    NextValid(server, closing, limit, o.r, o.held, Encode(f)[n]);
    NoneZero(f.key);
    if n == 1 { SpillAnswers(server, closing, limit, o.r.(masked := server, length := 0, state := NEW), f); }
  }

  lemma KeyNext(server: bool, closing: bool, limit: nat, f: Frame, n: nat, o: Outcome)
    requires NotData(server, limit, f) && 2 <= n < HeaderLen(f) && Underway(server, limit, f, n, o) && limit > 0
    ensures n < |Encode(f)|
      && At(server, closing, limit, f, n + 1, Next(server, closing, limit, o.r, o.held, Encode(f)[n]))
  {
    hide XorByte, Mask, Shl, Spill, Encode, Answer, ZeroKey, AfterLength, PayloadByte, LengthByte;
    EncodeAt(f, n);
    EncodeSize(f);
    NextValid(server, closing, limit, o.r, o.held, Encode(f)[n]);
    var c := f.key[n - 2];
    KeyPrefix(o.r.key, f.key, n - 2);
    var r2 := o.r.(key := o.r.key[n - 2 := c], allZero := o.r.allZero && c == 0);
    assert r2.key[..4] == r2.key && f.key[..4] == f.key;
    SpillAnswers(server, closing, limit, r2.(state := PAYLOAD, maskIndex := 0), f);
    SpillAnswers(server, closing, limit, r2.(state := NEW), f);
  }

  lemma PayloadNext(server: bool, closing: bool, limit: nat, f: Frame, n: nat, o: Outcome)
    requires NotData(server, limit, f) && HeaderLen(f) <= n < HeaderLen(f) + |f.payload|
      && Underway(server, limit, f, n, o) && limit > 0
    ensures n < |Encode(f)|
      && At(server, closing, limit, f, n + 1, Next(server, closing, limit, o.r, o.held, Encode(f)[n]))
  {
    hide XorByte, Spill, Encode, Answer;
    EncodeAt(f, n);
    EncodeSize(f);
    var c, i := Encode(f)[n], n - HeaderLen(f);
    NextValid(server, closing, limit, o.r, o.held, c);
    if f.masked {
      ZeroMask(c, f.key[i % 4]);
      UnmaskByte(f.payload[i], f.key[i % 4]);
    }
    var plain := o.r.allZero || (!server && !o.r.masked);
    var r1 := o.r.(length := Decrement(o.r.length), maskIndex := if plain then o.r.maskIndex else o.r.maskIndex + 1);
    assert f.payload[..i + 1] == f.payload[..i] + [f.payload[i]];
    assert f.payload[..|f.payload|] == f.payload;
    SpillAnswers(server, closing, limit, r1.(state := NEW), f);
  }

  lemma {:induction false} AnswerRun(server: bool, closing: bool, limit: nat, r: Rx, f: Frame, n: nat)
    requires NotData(server, limit, f) && limit > 0 && ValidRx(r) && r.state == NEW && n <= |Encode(f)|
    ensures At(server, closing, limit, f, n, Run(server, closing, limit, r, [], Encode(f)[..n]))
  {
    hide Next, Encode, Underway, Answered;
    EncodeSize(f);
    if n == 0 {
      NothingRead(server, limit, r, f);
    } else {
      AnswerRun(server, closing, limit, r, f, n - 1);
      var s := Encode(f);
      assert s[..n][..n - 1] == s[..n - 1];
      var o := Run(server, closing, limit, r, [], s[..n - 1]);
      if n - 1 < 2 {
        StartNext(server, closing, limit, f, n - 1, o);
      } else if n - 1 < HeaderLen(f) {
        KeyNext(server, closing, limit, f, n - 1, o);
      } else {
        PayloadNext(server, closing, limit, f, n - 1, o);
      }
      AliveSoFar(server, limit, f, n - 1, o);
      var o1 := Next(server, closing, limit, o.r, o.held, s[n - 1]);
      assert o.events + o1.events == o1.events;
    }
  }

  lemma NothingRead(server: bool, limit: nat, r: Rx, f: Frame)
    requires ValidFrame(f) && ValidRx(r) && r.state == NEW
    ensures Underway(server, limit, f, 0, Quiet(r, []))
  {
  }

  lemma AliveSoFar(server: bool, limit: nat, f: Frame, n: nat, o: Outcome)
    requires ValidFrame(f) && Underway(server, limit, f, n, o)
    ensures o.alive && o.events == []
  {
  }

  /**
    A ready receiver answers such a frame of its peer, and is ready again unless it closes or misses an empty
    payload.
   */
  lemma PeerAnswered(server: bool, closing: bool, limit: nat, r: Rx, f: Frame)
    requires NotData(server, limit, f) && limit > 0 && ValidRx(r) && r.state == NEW
    ensures Answered(server, closing, f, Run(server, closing, limit, r, [], Encode(f)))
  {
    hide Next, Encode, Answered, Run;
    AnswerRun(server, closing, limit, r, f, |Encode(f)|);
    assert Encode(f)[..|Encode(f)|] == Encode(f);
    EncodeSize(f);
  }

  /**
    After such a frame a receiver is ready for the next one if and only if it is the client, or there was a
    payload.
   */
  lemma ReadyWhen(server: bool, closing: bool, limit: nat, r: Rx, f: Frame)
    requires NotData(server, limit, f) && f.opcode != 8 && limit > 0 && ValidRx(r) && r.state == NEW
    ensures var o := Run(server, closing, limit, r, [], Encode(f));
      o.alive && (o.r.state == NEW <==> !server || f.payload != [])
  {
    hide Next, Encode, Run;
    PeerAnswered(server, closing, limit, r, f);
  }

  /** A server that was sent an empty masked frame takes the next byte for payload, with 2^64 - 1 bytes to come. */
  lemma EmptyFails(closing: bool, limit: nat, r: Rx, f: Frame, c: Byte)
    requires NotData(true, limit, f) && f.payload == [] && f.opcode != 8 && limit > 1 && ValidRx(r) && r.state == NEW
    ensures var o := Run(true, closing, limit, r, [], Encode(f));
      var o1 := Next(true, closing, limit, o.r, o.held, c);
      o.alive && o1.alive && o1.events == [] && o1.r.state == PAYLOAD && o1.r.length == 0xffff_ffff_ffff_ffff
  {
    hide Next, Encode, Run;
    PeerAnswered(true, closing, limit, r, f);
    var o := Run(true, closing, limit, r, [], Encode(f));
    PayloadWraps(closing, limit, o.r, c);
  }

  lemma PayloadWraps(closing: bool, limit: nat, r: Rx, c: Byte)
    requires ValidRx(r) && r.state == PAYLOAD && r.length == 0 && limit > 1
    ensures var o1 := Next(true, closing, limit, r, [], c);
      o1.alive && o1.events == [] && o1.r.state == PAYLOAD && o1.r.length == 0xffff_ffff_ffff_ffff
  {
    hide XorByte;
  }

  lemma RunFirst(server: bool, closing: bool, limit: nat, r: Rx, s: seq<Byte>)
    requires ValidRx(r) && s != []
    ensures var o, o1 := Next(server, closing, limit, r, [], s[0]), Run(server, closing, limit, r, [], s[..1]);
      o1.r == o.r && o1.held == o.held && o1.events == o.events && o1.alive == o.alive
  {
    hide Next;
    assert s[..1][..0] == [] && s[..1][0] == s[0];
  }

  lemma LengthRefused(server: bool, closing: bool, limit: nat, r: Rx, f: Frame)
    requires ValidFrame(f) && 8 <= f.opcode <= 15 && |f.payload| >= 126 && ValidRx(r) && r.state == HDR_LEN
      && r.opcode == f.opcode
    ensures var o := Next(server, closing, limit, r, [], Byte1(f)); !o.alive && o.events == []
  {
  }

  /** A control frame with an extended length ends the connection, and nothing is handed out or answered. */
  lemma LongRefused(server: bool, closing: bool, limit: nat, r: Rx, f: Frame)
    requires ValidFrame(f) && 8 <= f.opcode <= 15 && |f.payload| >= 126 && ValidRx(r) && r.state == NEW
    ensures var o := Run(server, closing, limit, r, [], Encode(f)); !o.alive && o.events == []
  {
    hide Encode, Next, Byte1;
    var s := Encode(f);
    EncodeSize(f);
    EncodeAt(f, 1);
    RunFirst(server, closing, limit, r, s);
    FirstByteType(server, closing, limit, r, f);
    var o := Run(server, closing, limit, r, [], s[..1]);
    LengthRefused(server, closing, limit, o.r, f);
    assert s == s[..2] + s[2..] && s[..2][..1] == s[..1];
    RunAppend(server, closing, limit, r, [], s[..2], s[2..]);
  }

  // ----- labels -----

  /** Opcode, FIN and type stay, and what is handed out carries the type. */
  predicate Kept(r: Rx, o: Outcome) {
    o.r.opcode == r.opcode && o.r.fin == r.fin && o.r.binary == r.binary && AllBinary(o.events, r.binary)
  }

  lemma SpillKeeps(server: bool, closing: bool, r: Rx, held: seq<Byte>)
    ensures Kept(r, Spill(server, closing, r, held))
  {
  }

  lemma LengthKeeps(server: bool, closing: bool, r: Rx, held: seq<Byte>)
    ensures Kept(r, AfterLength(server, closing, r, held))
  {
    hide Spill;
    SpillKeeps(server, closing, r.(state := NEW), held);
  }

  lemma LengthByteKeeps(server: bool, closing: bool, r: Rx, held: seq<Byte>, c: Byte)
    ensures Kept(r, LengthByte(server, closing, r, held, c))
  {
    hide AfterLength;
    LengthKeeps(server, closing, r.(masked := c >= 128, length := if server then c % 128 else c), held);
  }

  lemma NothingKept(binary: bool)
    ensures AllBinary([], binary)
  {
  }

  lemma KeyKeeps(server: bool, closing: bool, r: Rx, held: seq<Byte>)
    ensures Kept(r, AfterKey(server, closing, r, held))
  {
    hide Spill;
    SpillKeeps(server, closing, r.(state := NEW), held);
    SpillKeeps(server, closing, r.(state := PAYLOAD, maskIndex := 0), held);
  }

  lemma PayloadKeeps(server: bool, closing: bool, limit: nat, r: Rx, held: seq<Byte>, c: Byte)
    requires ValidRx(r)
    ensures Kept(r, PayloadByte(server, closing, limit, r, held, c))
  {
    hide Spill, XorByte;
    var plain := r.allZero || (!server && !r.masked);
    var held1 := held + [if plain then c else XorByte(c, r.key[r.maskIndex % 4])];
    var r1 := r.(length := Decrement(r.length), maskIndex := if plain then r.maskIndex else r.maskIndex + 1);
    SpillKeeps(server, closing, r1.(state := NEW), held1);
    SpillKeeps(server, closing, r1, held1);
  }

  /** What a byte hands out to the user carries opcode, FIN and type of the frame, which only its first byte sets. */
  lemma KeepsLabel(server: bool, closing: bool, limit: nat, r: Rx, held: seq<Byte>, c: Byte)
    requires ValidRx(r) && r.state != NEW
    ensures Kept(r, Next(server, closing, limit, r, held, c))
  {
    hide XorByte, Shl, AfterLength, AfterKey, PayloadByte, LengthByte, AllBinary;
    NothingKept(r.binary);
    match r.state
    case HDR_LEN =>
      LengthByteKeeps(server, closing, r, held, c);
    case LEN16_2 =>
    case LEN16_1 => LengthKeeps(server, closing, r.(length := r.length + c), held);
    case LEN64(k) =>
      LengthKeeps(server, closing, r.(length := (if k == 8 then 0 else r.length) + Shl(c, 8 * (k - 1))), held);
    case KEY(i) =>
      KeyKeeps(server, closing, r.(key := r.key[i := c], allZero := r.allZero && c == 0), held);
    case PAYLOAD => PayloadKeeps(server, closing, limit, r, held, c);
  }

  /** All chunks are of one type, text or binary. */
  predicate AllBinary(es: seq<Event>, binary: bool) {
    forall e {:trigger e in es} :: e in es && e.Data? ==> e.binary == binary
  }

  /** The first byte of a frame keeps the type, unless it starts a message of its own. */
  lemma FirstByteType(server: bool, closing: bool, limit: nat, r: Rx, f: Frame)
    requires ValidFrame(f) && ValidRx(r) && r.state == NEW
    ensures 0 < |Encode(f)|
    ensures var o := Next(server, closing, limit, r, [], Encode(f)[0]);
      && o.alive && o.events == [] && o.held == [] && o.r.state == HDR_LEN && o.r.opcode == f.opcode && ValidRx(o.r)
      && o.r.binary == if f.opcode == 1 then false else if f.opcode == 2 then true else r.binary
  {
    hide Encode;
    EncodeSize(f);
    EncodeAt(f, 0);
  }

  lemma {:induction false} TypeRun(server: bool, closing: bool, limit: nat, r: Rx, f: Frame, n: nat)
    requires Followed(server, f) && limit > 0 && ValidRx(r) && r.state == NEW && 0 < n <= |Encode(f)|
    ensures var o := Run(server, closing, limit, r, [], Encode(f)[..n]);
      var b := if f.opcode == 1 then false else if f.opcode == 2 then true else r.binary;
      o.r.binary == b && AllBinary(o.events, b)
  {
    hide Next, Encode, After;
    var s := Encode(f);
    var m0 := if server then 0 else r.maskIndex;
    assert s[..n][..n - 1] == s[..n - 1];
    if n == 1 {
      FirstByteType(server, closing, limit, r, f);
      assert s[..0] == [];
    } else {
      TypeRun(server, closing, limit, r, f, n - 1);
      PartRun(server, closing, limit, r, f, n - 1, m0);
      var o := Run(server, closing, limit, r, [], s[..n - 1]);
      NotReady(server, limit, o, f, n - 1, m0);
      KeepsLabel(server, closing, limit, o.r, o.held, s[n - 1]);
    }
  }

  lemma NotReady(server: bool, limit: nat, o: Outcome, f: Frame, n: nat, m0: nat)
    requires Followed(server, f) && 0 < n < |Encode(f)| && After(server, limit, o, f, n, m0)
    ensures o.alive && o.r.state != NEW && ValidRx(o.r)
  {
    hide Encode, Chunks, Concat, Top, ZeroKey, Received;
    EncodeSize(f);
  }

  /** All chunks of a frame have its type; a continuation is of the type that was last set. */
  lemma FrameType(server: bool, closing: bool, limit: nat, r: Rx, f: Frame)
    requires FromPeer(server, f) && limit > 0 && ValidRx(r) && r.state == NEW
    ensures var o := Run(server, closing, limit, r, [], Encode(f));
      var b := if f.opcode == 1 then false else if f.opcode == 2 then true else r.binary;
      o.r.binary == b && AllBinary(o.events, b)
  {
    hide Next, Run, Encode, AllBinary;
    TypeRun(server, closing, limit, r, f, |Encode(f)|);
    assert Encode(f)[..|Encode(f)|] == Encode(f);
    EncodeSize(f);
  }
}
