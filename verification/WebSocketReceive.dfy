/** The two byte-at-a-time receivers: what a byte does, and how they follow frames. */
module WebSocketReceive {
  import opened Bits
  import opened Xors
  import opened Bytes
  import opened WebSocketFrame

  /** LEN64(k) and KEY(i) stand for the eight and four numbered states. */
  datatype RxState = NEW | HDR_LEN | LEN16_2 | LEN16_1 | LEN64(left: nat) | KEY(i: nat) | PAYLOAD

  datatype Rx = Rx(
    state: RxState, opcode: nat, fin: bool, binary: bool, masked: bool,
    length: nat, key: seq<Byte>, allZero: bool, maskIndex: nat)

  /** What leaves a receiver: payload for the user, and replies to control frames. */
  datatype Event =
    | Data(opcode: nat, fin: bool, binary: bool, data: seq<Byte>)
    | GotPong(data: seq<Byte>)
    | SendPong(data: seq<Byte>)
    | SendClose(data: seq<Byte>)

  /** One byte's effect: new state, buffered payload, what was handed out, and whether the connection lives. */
  datatype Outcome = Outcome(r: Rx, held: seq<Byte>, events: seq<Event>, alive: bool)

  predicate ValidRx(r: Rx) {
    |r.key| == 4 && (r.state.LEN64? ==> 1 <= r.state.left <= 8) && (r.state.KEY? ==> r.state.i < 4)
  }

  /** The spill of the payload buffer. */
  function Spill(server: bool, closing: bool, r: Rx, held: seq<Byte>): Outcome {
    if r.opcode == CLOSE then Outcome(r, held, if closing then [] else [SendClose(held)], false)
    else if r.opcode == PING then Outcome(r, [], [SendPong(held)], true)
    else if r.opcode == PONG && !server && held != [] then Outcome(r, [], [GotPong(held)], true)
    else if IsData(r.opcode) && held != [] then Outcome(r, [], [Data(r.opcode, r.fin, r.binary, held)], true)
    else Outcome(r, [], [], true)
  }

  function Quiet(r: Rx, held: seq<Byte>): Outcome {
    Outcome(r, held, [], true)
  }

  /** The length is complete: the key or the payload comes next. The client alone notices an empty frame here. */
  function AfterLength(server: bool, closing: bool, r: Rx, held: seq<Byte>): Outcome {
    if r.masked then Quiet(r.(state := KEY(0)), held)
    else if server || r.length > 0 then Quiet(r.(state := PAYLOAD), held)
    else Spill(server, closing, r.(state := NEW), held)
  }

  function AfterKey(server: bool, closing: bool, r: Rx, held: seq<Byte>): Outcome {
    if server then
      var r1 := r.(state := PAYLOAD, maskIndex := 0);
      if r.length == 0 then Spill(server, closing, r1, held) else Quiet(r1, held)
    else if r.length > 0 then Quiet(r.(state := PAYLOAD), held)
    else Spill(server, closing, r.(state := NEW), held)
  }

  /** --rx_packet_length, which is 64 bits wide. */
  function Decrement(n: nat): nat {
    if n == 0 then 0xffff_ffff_ffff_ffff else n - 1
  }

  function PayloadByte(server: bool, closing: bool, limit: nat, r: Rx, held: seq<Byte>, c: Byte): Outcome
    requires ValidRx(r)
  {
    var plain := r.allZero || (!server && !r.masked);
    var held1 := held + [if plain then c else XorByte(c, r.key[r.maskIndex % 4])];
    var r1 := r.(length := Decrement(r.length), maskIndex := if plain then r.maskIndex else r.maskIndex + 1);
    if r1.length == 0 then Spill(server, closing, r1.(state := NEW), held1)
    else if |held1| == limit then Spill(server, closing, r1, held1)
    else Quiet(r1, held1)
  }

  function LengthByte(server: bool, closing: bool, r: Rx, held: seq<Byte>, c: Byte): Outcome {
    var r1 := r.(masked := c >= 128);
    if c % 128 >= 126 && r.opcode % 16 >= 8 then Outcome(r1, held, [], false)
    else if c % 128 == 126 then Quiet(r1.(state := LEN16_2), held)
    else if c % 128 == 127 then Quiet(r1.(state := LEN64(8)), held)
    else AfterLength(server, closing, r1.(length := if server then c % 128 else c), held)
  }

  /** What one byte does. */
  function Next(server: bool, closing: bool, limit: nat, r: Rx, held: seq<Byte>, c: Byte): Outcome
    requires ValidRx(r)
  {
    match r.state
    case NEW =>
      Quiet(r.(opcode := c % 16, fin := c >= 128,
        binary := if c % 16 in {TEXT, BINARY} then c % 16 == BINARY else r.binary,
               allZero := server || r.allZero, state := HDR_LEN), held)
    case HDR_LEN => LengthByte(server, closing, r, held, c)
    case LEN16_2 => Quiet(r.(length := 256 * c, state := LEN16_1), held)
    case LEN16_1 => AfterLength(server, closing, r.(length := r.length + c), held)
    case LEN64(k) =>
      if k == 8 && c >= 128 then Outcome(r, held, [], false)
      else
        var r1 := r.(length := (if k == 8 then 0 else r.length) + Shl(c, 8 * (k - 1)));
        if k > 1 then Quiet(r1.(state := LEN64(k - 1)), held) else AfterLength(server, closing, r1, held)
    case KEY(i) =>
      var r1 := r.(key := r.key[i := c], allZero := r.allZero && c == 0);
      if i < 3 then Quiet(r1.(state := KEY(i + 1)), held) else AfterKey(server, closing, r1, held)
    case PAYLOAD => PayloadByte(server, closing, limit, r, held, c)
  }

  // ----- every byte stream, client -----

  /** In the payload a byte is outstanding and the buffer has room; elsewhere the buffer is empty. */
  predicate ClientOk(limit: nat, r: Rx, held: seq<Byte>) {
    ValidRx(r) && if r.state == PAYLOAD then r.length > 0 && |held| < limit else held == []
  }

  function EventData(e: Event): seq<Byte> {
    e.data
  }

  predicate Small(limit: nat, es: seq<Event>) {
    forall e {:trigger e in es} :: e in es ==> |EventData(e)| <= limit
  }

  lemma SpillFacts(server: bool, closing: bool, r: Rx, held: seq<Byte>)
    ensures var o := Spill(server, closing, r, held); o.r == r && (o.alive ==> o.held == []) && Small(|held|, o.events)
  {
  }

  lemma AfterLengthOk(closing: bool, limit: nat, r: Rx, held: seq<Byte>)
    requires |r.key| == 4 && held == [] && limit > 0
    ensures var o := AfterLength(false, closing, r, held);
      Small(limit, o.events) && (o.alive ==> ClientOk(limit, o.r, o.held))
  {
    hide Spill;
    SpillFacts(false, closing, r.(state := NEW), held);
  }

  lemma AfterKeyOk(closing: bool, limit: nat, r: Rx, held: seq<Byte>)
    requires |r.key| == 4 && held == [] && limit > 0
    ensures var o := AfterKey(false, closing, r, held);
      Small(limit, o.events) && (o.alive ==> ClientOk(limit, o.r, o.held))
  {
    hide Spill;
    SpillFacts(false, closing, r.(state := NEW), held);
  }

  lemma PayloadOk(closing: bool, limit: nat, r: Rx, held: seq<Byte>, c: Byte)
    requires ClientOk(limit, r, held) && limit > 0 && r.state == PAYLOAD
    ensures var o := PayloadByte(false, closing, limit, r, held, c);
      Small(limit, o.events) && (o.alive ==> ClientOk(limit, o.r, o.held))
  {
    hide Spill, XorByte;
    var plain := r.allZero || !r.masked;
    var held1 := held + [if plain then c else XorByte(c, r.key[r.maskIndex % 4])];
    var r1 := r.(length := Decrement(r.length), maskIndex := if plain then r.maskIndex else r.maskIndex + 1);
    SpillFacts(false, closing, r1.(state := NEW), held1);
    SpillFacts(false, closing, r1, held1);
  }

  lemma LengthByteOk(closing: bool, limit: nat, r: Rx, held: seq<Byte>, c: Byte)
    requires |r.key| == 4 && held == [] && limit > 0
    ensures var o := LengthByte(false, closing, r, held, c);
      Small(limit, o.events) && (o.alive ==> ClientOk(limit, o.r, o.held))
  {
    hide AfterLength;
    AfterLengthOk(closing, limit, r.(masked := c >= 128, length := c), held);
  }

  lemma ClientKeepsOk(closing: bool, limit: nat, r: Rx, held: seq<Byte>, c: Byte)
    requires ClientOk(limit, r, held) && limit > 0
    ensures var o := Next(false, closing, limit, r, held, c);
      Small(limit, o.events) && (o.alive ==> ClientOk(limit, o.r, o.held))
  {
    hide XorByte, Shl, AfterLength, AfterKey, PayloadByte, LengthByte;
    match r.state
    case HDR_LEN => LengthByteOk(closing, limit, r, held, c);
    case LEN16_1 => AfterLengthOk(closing, limit, r.(length := r.length + c), held);
    case LEN64(k) =>
      AfterLengthOk(closing, limit, r.(length := (if k == 8 then 0 else r.length) + Shl(c, 8 * (k - 1))), held);
    case KEY(i) => AfterKeyOk(closing, limit, r.(key := r.key[i := c], allZero := r.allZero && c == 0), held);
    case PAYLOAD => PayloadOk(closing, limit, r, held, c);
    case _ =>
  }

  function Run(server: bool, closing: bool, limit: nat, r: Rx, held: seq<Byte>, s: seq<Byte>): (o: Outcome)
    requires ValidRx(r)
    ensures ValidRx(o.r)
  {
    if s == [] then Quiet(r, held)
    else
      var o := Run(server, closing, limit, r, held, s[..|s| - 1]);
      if !o.alive then o
      else
        NextValid(server, closing, limit, o.r, o.held, s[|s| - 1]);
        var o1 := Next(server, closing, limit, o.r, o.held, s[|s| - 1]);
        o1.(events := o.events + o1.events)
  }

  lemma NextValid(server: bool, closing: bool, limit: nat, r: Rx, held: seq<Byte>, c: Byte)
    requires ValidRx(r)
    ensures ValidRx(Next(server, closing, limit, r, held, c).r)
  {
    hide XorByte, Shl, AfterLength, AfterKey, PayloadByte, LengthByte;
    match r.state
    case HDR_LEN => LengthByteValid(server, closing, r, held, c);
    case LEN16_1 => AfterLengthValid(server, closing, r.(length := r.length + c), held);
    case LEN64(k) =>
      AfterLengthValid(server, closing, r.(length := (if k == 8 then 0 else r.length) + Shl(c, 8 * (k - 1))), held);
    case KEY(i) => AfterLengthValid(server, closing, r.(key := r.key[i := c], allZero := r.allZero && c == 0), held);
    case PAYLOAD => PayloadValid(server, closing, limit, r, held, c);
    case _ =>
  }

  lemma AfterLengthValid(server: bool, closing: bool, r: Rx, held: seq<Byte>)
    requires |r.key| == 4
    ensures ValidRx(AfterLength(server, closing, r, held).r) && ValidRx(AfterKey(server, closing, r, held).r)
  {
    hide Spill;
    SpillFacts(server, closing, r.(state := NEW), held);
    SpillFacts(server, closing, r.(state := PAYLOAD, maskIndex := 0), held);
  }

  lemma LengthByteValid(server: bool, closing: bool, r: Rx, held: seq<Byte>, c: Byte)
    requires ValidRx(r)
    ensures ValidRx(LengthByte(server, closing, r, held, c).r)
  {
    hide AfterLength;
    AfterLengthValid(server, closing, r.(masked := c >= 128, length := if server then c % 128 else c), held);
  }

  lemma PayloadValid(server: bool, closing: bool, limit: nat, r: Rx, held: seq<Byte>, c: Byte)
    requires ValidRx(r)
    ensures ValidRx(PayloadByte(server, closing, limit, r, held, c).r)
  {
    hide Spill, XorByte;
    var plain := r.allZero || (!server && !r.masked);
    var held1 := held + [if plain then c else XorByte(c, r.key[r.maskIndex % 4])];
    var r1 := r.(length := Decrement(r.length), maskIndex := if plain then r.maskIndex else r.maskIndex + 1);
    SpillFacts(server, closing, r1.(state := NEW), held1);
    SpillFacts(server, closing, r1, held1);
  }

  /**
    For every byte stream: the client's invariant holds while the connection lives, and no chunk exceeds the
    buffer.
   */
  lemma {:induction false} ClientRunOk(closing: bool, limit: nat, r: Rx, held: seq<Byte>, s: seq<Byte>)
    requires ClientOk(limit, r, held) && limit > 0
    ensures var o := Run(false, closing, limit, r, held, s);
      Small(limit, o.events) && (o.alive ==> ClientOk(limit, o.r, o.held))
    decreases |s|
  {
    hide ClientOk, Next;
    if s != [] {
      OkValid(limit, r, held);
      var o := Run(false, closing, limit, r, held, s[..|s| - 1]);
      ClientRunOk(closing, limit, r, held, s[..|s| - 1]);
      if o.alive { ClientKeepsOk(closing, limit, o.r, o.held, s[|s| - 1]); }
    }
  }

  lemma OkValid(limit: nat, r: Rx, held: seq<Byte>)
    requires ClientOk(limit, r, held)
    ensures ValidRx(r)
  {
  }
}
