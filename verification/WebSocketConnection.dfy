/** The receivers as they run: per-connection state, the user's buffer, one byte at a time. */
module WebSocketConnection {
  import opened Bits
  import opened Bytes
  import opened WebSocketFrame
  import opened WebSocketReceive

  /** The length states, alike in both receivers but for the mask bit the client keeps in a short length. */
  method LengthStates(server: bool, r: Rx, c: Byte, ghost closing: bool, ghost limit: nat, ghost held: seq<Byte>)
    returns (r': Rx, alive: bool, done: bool)
    requires ValidRx(r) && (r.state == HDR_LEN || r.state == LEN16_2 || r.state == LEN16_1 || r.state.LEN64?)
    ensures |r'.key| == 4 && (!alive ==> !done)
    ensures Next(server, closing, limit, r, held, c) ==
      if done then AfterLength(server, closing, r', held) else Outcome(r', held, [], alive)
  {
    hide XorByte, Shl, PayloadByte, AfterKey, AfterLength;
    alive, done := true, true;
    match r.state {
      case HDR_LEN =>
        r' := r.(masked := c / 128 == 1);
        if c % 128 == 126 {
          if r.opcode % 16 >= 8 { return r', false, false; }
          r', done := r'.(state := LEN16_2), false;
        } else if c % 128 == 127 {
          if r.opcode % 16 >= 8 { return r', false, false; }
          r', done := r'.(state := LEN64(8)), false;
        } else {
          r' := r'.(length := if server then c % 128 else c);
        }
      case LEN16_2 =>
        r', done := r.(length := 256 * c, state := LEN16_1), false;
      case LEN16_1 =>
        r' := r.(length := r.length + c);
      case LEN64(k) =>
        r' := r;
        if k == 8 {
          if c >= 128 { return r', false, false; }
          r' := r'.(length := 0);
        }
        r' := r'.(length := r'.length + Shl(c, 8 * (k - 1)));
        if k > 1 { r', done := r'.(state := LEN64(k - 1)), false; }
    }
  }

  /** A byte of the key; done after the fourth. */
  method KeyStates(server: bool, r: Rx, c: Byte, ghost closing: bool, ghost limit: nat, ghost held: seq<Byte>)
    returns (r': Rx, done: bool)
    requires ValidRx(r) && r.state.KEY?
    ensures |r'.key| == 4
    ensures Next(server, closing, limit, r, held, c) ==
      if done then AfterKey(server, closing, r', held) else Quiet(r', held)
  {
    hide XorByte, Shl, PayloadByte, AfterKey, AfterLength, LengthByte;
    var i := r.state.i;
    r' := r.(key := r.key[i := c]);
    if c != 0 { r' := r'.(allZero := false); }
    done := i == 3;
    if !done { r' := r'.(state := KEY(i + 1)); }
  }

  class Receiver {
    var r: Rx
    /** rx_buffer_size, or LWS_MAX_SOCKET_IO_BUF when the protocol gives none. */
    const limit: nat
    const buf: array<Byte>
    var head: nat
    var closing: bool
    /** What was handed out so far. */
    var log: seq<Event>

    ghost predicate Valid()
      reads this, buf
    {
      ValidRx(r) && 0 < limit < buf.Length && head < limit
    }

    ghost function Held(): seq<Byte>
      requires head <= buf.Length
      reads this, buf
    {
      buf[..head]
    }

    constructor (rxBufferSize: nat)
      ensures Valid() && r.state == NEW && head == 0 && log == [] && !closing && !r.binary && fresh(buf)
      ensures limit == if rxBufferSize == 0 then 4096 else rxBufferSize
    {
      limit := if rxBufferSize == 0 then 4096 else rxBufferSize;
      buf := new Byte[if rxBufferSize == 0 then 4097 else rxBufferSize + 1];
      r := Rx(NEW, 0, false, false, false, 0, [0, 0, 0, 0], false, 0);
      head, closing, log := 0, false, [];
    }

    /** What happened to the fields is what the step function says. */
    twostate predicate Stepped(server: bool, c: Byte, alive: bool)
      requires old(ValidRx(r)) && old(head) <= buf.Length && head <= buf.Length
      reads this, buf
    {
      var o := Next(server, old(closing), limit, old(r), old(Held()), c);
      r == o.r && Held() == o.held && log == old(log) + o.events && alive == o.alive && closing == old(closing)
    }

    /** rx_user_buffer[head++] = b */
    method Store(b: Byte)
      requires head < buf.Length
      modifies this`head, buf
      ensures head == old(head) + 1 && Held() == old(Held()) + [b]
    {
      buf[head] := b;
      head := head + 1;
      assert buf[..head] == old(buf[..head]) + [b];
    }

    /** The server's spill. */
    method ServerSpill() returns (alive: bool)
      requires head <= buf.Length
      modifies this`head, this`log
      ensures head <= buf.Length
      ensures var o := Spill(true, closing, r, old(Held()));
        Held() == o.held && log == old(log) + o.events && alive == o.alive
    {
      var data := buf[..head];
      match r.opcode {
        case 8 =>
          if !closing { log := log + [SendClose(data)]; }
          return false;
        case 9 =>
          log := log + [SendPong(data)];
        case 10 =>
        case 0 => if head > 0 { log := log + [Data(r.opcode, r.fin, r.binary, data)]; }
        case 1 => if head > 0 { log := log + [Data(r.opcode, r.fin, r.binary, data)]; }
        case 2 => if head > 0 { log := log + [Data(r.opcode, r.fin, r.binary, data)]; }
        case _ =>
      }
      head := 0;
      alive := true;
    }

    /** The client's spill: it also passes pongs up. */
    method ClientSpill() returns (alive: bool)
      requires head <= buf.Length
      modifies this`head, this`log
      ensures head <= buf.Length
      ensures var o := Spill(false, closing, r, old(Held()));
        Held() == o.held && log == old(log) + o.events && alive == o.alive
    {
      var data := buf[..head];
      var handled := false;
      match r.opcode {
        case 8 =>
          if !closing { log := log + [SendClose(data)]; }
          return false;
        case 9 =>
          log := log + [SendPong(data)];
          handled := true;
        case 10 =>
        case 0 =>
        case 1 =>
        case 2 =>
        case _ =>
          head := 0;
          return true;
      }
      if !handled && head > 0 {
        log := log + [if r.opcode == PONG then GotPong(data) else Data(r.opcode, r.fin, r.binary, data)];
      }
      head := 0;
      alive := true;
    }

    /** NEW and HDR_1: opcode and FIN. */
    method FirstHeaderByte(c: Byte)
      modifies this`r
      ensures r == old(r).(opcode := c % 16, fin := c >= 128, state := HDR_LEN,
        binary := if c % 16 in {TEXT, BINARY} then c % 16 == BINARY else old(r).binary)
    {
      r := r.(opcode := c % 16, fin := c / 128 == 1);
      if r.opcode == TEXT || r.opcode == BINARY { r := r.(binary := r.opcode == BINARY); }
      r := r.(state := HDR_LEN);
    }

    /** The server's length states. */
    method ServerLength(c: Byte) returns (alive: bool)
      requires Valid() && (r.state == HDR_LEN || r.state == LEN16_2 || r.state == LEN16_1 || r.state.LEN64?)
      modifies this`r
      ensures Stepped(true, c, alive) && (alive ==> Valid())
    {
      hide Next, Spill;
      NextValid(true, closing, limit, r, Held(), c);
      var r', done;
      r', alive, done := LengthStates(true, r, c, closing, limit, Held());
      if done { r' := r'.(state := if r'.masked then KEY(0) else PAYLOAD); }
      r := r';
    }

    /** The server's masking key states. */
    method ServerKey(c: Byte) returns (alive: bool)
      requires Valid() && r.state.KEY?
      modifies this`r, this`head, this`log
      ensures head <= buf.Length && Stepped(true, c, alive) && (alive ==> Valid())
    {
      hide Next, Spill;
      NextValid(true, closing, limit, r, Held(), c);
      var r', done := KeyStates(true, r, c, closing, limit, Held());
      alive := true;
      if done { r' := r'.(state := PAYLOAD, maskIndex := 0); }
      r := r';
      if done && r.length == 0 {
        SpillFacts(true, closing, r, Held());
        alive := ServerSpill();
      }
    }

    /** The server's payload state. */
    method ServerPayload(c: Byte) returns (alive: bool)
      requires Valid() && r.state == PAYLOAD
      modifies this`r, this`head, this`log, buf
      ensures head <= buf.Length && Stepped(true, c, alive) && (alive ==> Valid())
    {
      hide XorByte, Spill, AfterKey, AfterLength, LengthByte;
      alive := true;
      if r.allZero {
        Store(c);
      } else {
        Store(XorByte(c, r.key[r.maskIndex % 4]));
        r := r.(maskIndex := r.maskIndex + 1);
      }
      r := r.(length := Decrement(r.length));
      if r.length == 0 {
        r := r.(state := NEW);
        SpillFacts(true, closing, r, Held());
        alive := ServerSpill();
      } else if head == limit {
        SpillFacts(true, closing, r, Held());
        alive := ServerSpill();
      }
    }

    /** libwebsocket_rx_sm() */
    method ServerByte(c: Byte) returns (alive: bool)
      requires Valid()
      modifies this`r, this`head, this`log, buf
      ensures head <= buf.Length && Stepped(true, c, alive) && (alive ==> Valid())
    {
      hide XorByte, Spill, AfterKey, AfterLength, LengthByte, PayloadByte, Shl;
      match r.state {
        case NEW =>
          r := r.(allZero := true);
          FirstHeaderByte(c);
          alive := true;
        case KEY(_) => alive := ServerKey(c);
        case PAYLOAD => alive := ServerPayload(c);
        case _ => alive := ServerLength(c);
      }
    }

    /** The client's length states; it notices an empty unmasked frame. */
    method ClientLength(c: Byte) returns (alive: bool)
      requires Valid() && (r.state == HDR_LEN || r.state == LEN16_2 || r.state == LEN16_1 || r.state.LEN64?)
      modifies this`r, this`head, this`log
      ensures head <= buf.Length && Stepped(false, c, alive) && (alive ==> Valid())
    {
      hide Next, Spill, AfterLength;
      NextValid(false, closing, limit, r, Held(), c);
      var r', done;
      r', alive, done := LengthStates(false, r, c, closing, limit, Held());
      r := r';
      if done { alive := ClientLengthDone(); }
    }

    method ClientLengthDone() returns (alive: bool)
      requires |r.key| == 4 && 0 < limit < buf.Length && head < limit
      modifies this`r, this`head, this`log
      ensures head <= buf.Length && (alive ==> Valid())
      ensures var o := AfterLength(false, closing, old(r), old(Held()));
        r == o.r && Held() == o.held && log == old(log) + o.events && alive == o.alive
    {
      hide Spill;
      alive := true;
      if r.masked {
        r := r.(state := KEY(0));
      } else if r.length != 0 {
        r := r.(state := PAYLOAD);
      } else {
        r := r.(state := NEW);
        SpillFacts(false, closing, r, Held());
        alive := ClientSpill();
      }
    }

    /** The client's masking key states. */
    method ClientKey(c: Byte) returns (alive: bool)
      requires Valid() && r.state.KEY?
      modifies this`r, this`head, this`log
      ensures head <= buf.Length && Stepped(false, c, alive) && (alive ==> Valid())
    {
      hide Next, Spill;
      NextValid(false, closing, limit, r, Held(), c);
      var r', done := KeyStates(false, r, c, closing, limit, Held());
      alive := true;
      if done { r' := r'.(state := if r'.length != 0 then PAYLOAD else NEW); }
      r := r';
      if done && r.length == 0 {
        SpillFacts(false, closing, r, Held());
        alive := ClientSpill();
      }
    }

    /** The client's payload state. */
    method ClientPayload(c: Byte) returns (alive: bool)
      requires Valid() && r.state == PAYLOAD
      modifies this`r, this`head, this`log, buf
      ensures head <= buf.Length && Stepped(false, c, alive) && (alive ==> Valid())
    {
      hide XorByte, Spill, AfterKey, AfterLength, LengthByte;
      alive := true;
      if !r.masked || r.allZero {
        Store(c);
      } else {
        Store(XorByte(c, r.key[r.maskIndex % 4]));
        r := r.(maskIndex := r.maskIndex + 1);
      }
      r := r.(length := Decrement(r.length));
      if r.length == 0 {
        r := r.(state := NEW);
        SpillFacts(false, closing, r, Held());
        alive := ClientSpill();
      } else if head == limit {
        SpillFacts(false, closing, r, Held());
        alive := ClientSpill();
      }
    }

    /** libwebsocket_client_rx_sm() */
    method ClientByte(c: Byte) returns (alive: bool)
      requires Valid()
      modifies this`r, this`head, this`log, buf
      ensures head <= buf.Length && Stepped(false, c, alive) && (alive ==> Valid())
    {
      hide XorByte, Spill, AfterKey, AfterLength, LengthByte, PayloadByte, Shl;
      match r.state {
        case NEW =>
          FirstHeaderByte(c);
          alive := true;
        case KEY(_) => alive := ClientKey(c);
        case PAYLOAD => alive := ClientPayload(c);
        case _ => alive := ClientLength(c);
      }
    }
  }
}
