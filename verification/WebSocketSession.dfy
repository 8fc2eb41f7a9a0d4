/** Writer and peer's receiver together, in either direction. */
module WebSocketSession {
  import opened Bits
  import opened Bytes
  import opened WebSocketFrame
  import opened WebSocketReceive
  import opened WebSocketFollow
  import opened WebSocketControl
  import opened WebSocketConnection
  import opened WebSocketWrite

  datatype Message = Message(kind: WriteKind, noFin: bool, nonce: seq<Byte>, payload: seq<Byte>)

  /** A nonempty message that the masking loop, if any, covers; see WireIsFrame for why. */
  predicate Sendable(toServer: bool, m: Message) {
    |m.nonce| == 4 && 0 < |m.payload| < 0x8000_0000_0000_0000
    && (!toServer || ZeroNonce(m.nonce) || |m.payload| < 0x7fff_fffc)
  }

  function FrameOf(toServer: bool, m: Message): Frame {
    Sent(toServer, m.kind, m.noFin, m.nonce, m.payload)
  }

  lemma RunOne(server: bool, closing: bool, limit: nat, r: Rx, held: seq<Byte>, s: seq<Byte>, i: nat)
    requires ValidRx(r) && i < |s|
    ensures var o := Run(server, closing, limit, r, held, s[..i]);
      o.alive ==>
        var o1 := Next(server, closing, limit, o.r, o.held, s[i]);
        && Run(server, closing, limit, r, held, s[..i + 1]) == o1.(events := o.events + o1.events)
        && (!o1.alive ==> Run(server, closing, limit, r, held, s) == o1.(events := o.events + o1.events))
  {
    hide Next;
    assert s[..i + 1][..i] == s[..i];
    assert s == s[..i + 1] + s[i + 1..];
    RunAppend(server, closing, limit, r, held, s[..i + 1], s[i + 1..]);
  }

  lemma RunNone(server: bool, closing: bool, limit: nat, r: Rx, held: seq<Byte>)
    requires ValidRx(r)
    ensures Run(server, closing, limit, r, held, []) == Outcome(r, held, [], true)
  {
  }

  /** Feed bytes to a receiver until one ends the connection. */
  method Feed(rc: Receiver, server: bool, s: seq<Byte>) returns (alive: bool)
    requires rc.Valid()
    modifies rc`r, rc`head, rc`log, rc.buf
    ensures rc.head <= rc.buf.Length && (alive ==> rc.Valid())
    ensures var o := Run(server, rc.closing, rc.limit, old(rc.r), old(rc.Held()), s);
      rc.r == o.r && rc.Held() == o.held && rc.log == old(rc.log) + o.events && alive == o.alive
  {
    hide Next, ValidRx, Run;
    ghost var r0, held0, log0 := rc.r, rc.Held(), rc.log;
    RunNone(server, rc.closing, rc.limit, r0, held0);
    assert s[..0] == [];
    alive := true;
    for i := 0 to |s|
      invariant alive && rc.Valid() && rc.head <= rc.buf.Length
      invariant var o := Run(server, rc.closing, rc.limit, r0, held0, s[..i]);
        o.alive && rc.r == o.r && rc.Held() == o.held && rc.log == log0 + o.events
    {
      RunOne(server, rc.closing, rc.limit, r0, held0, s, i);
      if server {
        alive := rc.ServerByte(s[i]);
      } else {
        alive := rc.ClientByte(s[i]);
      }
      if !alive { return; }
    }
    assert s[..|s|] == s;
  }

  lemma FrameIsFromPeer(toServer: bool, m: Message)
    requires Sendable(toServer, m)
    ensures FromPeer(toServer, FrameOf(toServer, m)) && Wire(FrameOf(toServer, m)) == Encode(FrameOf(toServer, m))
  {
    hide Encode, Wire;
    WireIsFrame(FrameOf(toServer, m));
  }

  /** libwebsocket_write of one message from a buffer with padding in front. */
  method Send(toServer: bool, m: Message) returns (wire: seq<Byte>)
    requires Sendable(toServer, m)
    ensures FromPeer(toServer, FrameOf(toServer, m)) && wire == Encode(FrameOf(toServer, m))
    ensures Says(wire, toServer, m.kind, m.noFin, m.nonce, m.payload)
  {
    hide Encode, Wire, Says;
    var a := new Byte[PRE_PADDING + |m.payload|];
    for i := 0 to |m.payload|
      invariant a[PRE_PADDING..PRE_PADDING + i] == m.payload[..i]
    {
      a[PRE_PADDING + i] := m.payload[i];
      assert a[PRE_PADDING..PRE_PADDING + i + 1] == a[PRE_PADDING..PRE_PADDING + i] + [m.payload[i]];
    }
    assert a[PRE_PADDING..PRE_PADDING + |m.payload|] == m.payload;
    FrameIsFromPeer(toServer, m);
    var start := Write(toServer, m.kind, m.noFin, m.nonce, a, PRE_PADDING, |m.payload|);
    wire := a[start..PRE_PADDING + |m.payload|];
  }

  /** The type of the last message: a continuation is of the type of the message it continues. */
  predicate LastIsBinary(ms: seq<Message>) {
    ms != [] &&
    match ms[|ms| - 1].kind
    case WriteText => false
    case WriteBinary => true
    case WriteContinuation => LastIsBinary(ms[..|ms| - 1])
  }

  /** A chunk of the message as the user gets it: opcode 1, 2 or 0, whether it is the last frame, text or binary. */
  predicate IsPart(limit: nat, m: Message, binary: bool, e: Event) {
    && e.Data? && 0 < |e.data| <= limit && e.fin == !m.noFin && e.binary == binary
    && match m.kind
       case WriteText => e.opcode == 1
       case WriteBinary => e.opcode == 2
       case WriteContinuation => e.opcode == 0
  }

  predicate Parts(limit: nat, m: Message, binary: bool, es: seq<Event>) {
    forall e {:trigger e in es} :: e in es ==> IsPart(limit, m, binary, e)
  }

  /** The events are the messages in order: each one's chunks are labelled as it is and make up its payload. */
  ghost predicate Arrived(limit: nat, ms: seq<Message>, es: seq<Event>) {
    if ms == [] then es == []
    else exists k {:trigger es[..k]} :: (
      && 0 <= k <= |es| && Arrived(limit, ms[..|ms| - 1], es[..k])
      && Parts(limit, ms[|ms| - 1], LastIsBinary(ms), es[k..]) && Concat(es[k..]) == ms[|ms| - 1].payload)
  }

  lemma ArrivesOne(limit: nat, ms: seq<Message>, m: Message, es: seq<Event>, more: seq<Event>)
    requires Arrived(limit, ms, es) && Parts(limit, m, LastIsBinary(ms + [m]), more) && Concat(more) == m.payload
    ensures Arrived(limit, ms + [m], es + more)
  {
    hide Parts, Concat, LastIsBinary;
    var all, k := es + more, |es|;
    assert (ms + [m])[..|ms|] == ms && all[..k] == es && all[k..] == more;
  }

  lemma NextIsBinary(ms: seq<Message>, m: Message)
    ensures LastIsBinary(ms + [m]) == (m.kind == WriteBinary || (m.kind == WriteContinuation && LastIsBinary(ms)))
  {
    assert (ms + [m])[..|ms|] == ms;
  }

  /** The chunks of the frame are parts of the message. */
  lemma ChunksAreParts(limit: nat, toServer: bool, m: Message, binary: bool, es: seq<Event>)
    requires Chunks(limit, FrameOf(toServer, m), es) && AllBinary(es, binary)
    ensures Parts(limit, m, binary, es)
  {
  }

  /** One message through the peer's receiver. */
  lemma OneMessage(toServer: bool, limit: nat, r: Rx, ms: seq<Message>, m: Message)
    requires FromPeer(toServer, FrameOf(toServer, m)) && limit > 0 && ValidRx(r) && r.state == NEW
    requires r.binary == LastIsBinary(ms)
    ensures var o := Run(toServer, false, limit, r, [], Encode(FrameOf(toServer, m)));
      && o.alive && ValidRx(o.r) && o.r.state == NEW && o.held == [] && o.r.binary == LastIsBinary(ms + [m])
      && Parts(limit, m, LastIsBinary(ms + [m]), o.events) && Concat(o.events) == m.payload
  {
    hide Run, Encode, Chunks, Concat, LastIsBinary, AllBinary, Parts, Next, ValidRx;
    var f := FrameOf(toServer, m);
    PeerRun(toServer, false, limit, r, f);
    FrameType(toServer, false, limit, r, f);
    NextIsBinary(ms, m);
    ChunksAreParts(limit, toServer, m, LastIsBinary(ms + [m]),
      Run(toServer, false, limit, r, [], Encode(f)).events);
  }

  /**
    Any messages, sent one after the other by either side and fed to the other side's receiver, arrive in order:
    text with opcode 1, binary data with opcode 2, continuations with opcode 0 and the type of what they
    continue, with the FIN flags they were sent with and the same payloads, in chunks that fit the buffer.
   */
  method Exchange(toServer: bool, ms: seq<Message>, rxBufferSize: nat) returns (log: seq<Event>)
    requires forall i {:trigger ms[i]} :: 0 <= i < |ms| ==> Sendable(toServer, ms[i])
    ensures Arrived(if rxBufferSize == 0 then 4096 else rxBufferSize, ms, log)
  {
    hide Run, Encode, Parts, Concat, Sendable, ValidRx, Next, FromPeer, LastIsBinary, Says;
    var rc := new Receiver(rxBufferSize);
    assert rc.Held() == [];
    NoMessages();
    for i := 0 to |ms|
      invariant rc.Valid() && rc.r.state == NEW && rc.Held() == [] && !rc.closing && fresh(rc) && fresh(rc.buf)
      invariant Arrived(rc.limit, ms[..i], rc.log) && rc.r.binary == LastIsBinary(ms[..i])
    {
      var wire := Send(toServer, ms[i]);
      OneMessage(toServer, rc.limit, rc.r, ms[..i], ms[i]);
      ghost var log0 := rc.log;
      var alive := Feed(rc, toServer, wire);
      ArrivesOne(rc.limit, ms[..i], ms[i], log0, rc.log[|log0|..]);
      assert rc.log == log0 + rc.log[|log0|..];
      assert ms[..i + 1] == ms[..i] + [ms[i]];
    }
    assert ms[..|ms|] == ms;
    log := rc.log;
  }

  lemma NoMessages()
    ensures !LastIsBinary([])
  {
  }
}
