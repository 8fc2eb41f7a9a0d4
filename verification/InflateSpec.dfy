/**
  Raw inflate (RFC 1951) as a deterministic machine on a stream of bits.

  A configuration holds the bits not yet consumed as a number v of n bits (those in the
  accumulator and those still in the caller's buffer alike) and the whole output so far.
  Next is one step; it is None when the step needs bits that are not there, or at the end.
  Codes are decoded by their canonical definition, not by a table.
 */
module InflateSpec {
  import opened Bits
  import opened Bytes
  import opened Canonical
  import opened DecodeTable
  import InflateTable

  datatype Sub =
    | Len
    | LenExt(length: nat, extra: nat)
    | Dist(length: nat)
    | DistExt(length: nat, offset: nat, extra: nat)
    | Match(length: nat, offset: nat)
    | Lit(val: nat)

  datatype Phase =
    | Block
    | Stored
    | Copy(left: nat)
    | Table
    | LenLens(nlen: nat, ndist: nat, ncode: nat, cl: seq<nat>)
    | CodeLens(nlen: nat, ndist: nat, code: seq<nat>, ls: seq<nat>)
    | Coded(lit: seq<nat>, dist: seq<nat>, sub: Sub)
    | Done
    | Bad

  datatype Config = Config(last: bool, phase: Phase, v: nat, n: nat, out: seq<Byte>)

  /** The window: output available to matches besides that of the current call, which started at base. */
  datatype Window = Window(base: nat, size: nat)

  // ----- codes -----

  /** The entry for the canonical code word v starts with, or the invalid marker. */
  ghost function Decode(kind: Kind, lens: seq<nat>, v: nat): Entry
    requires |lens| <= Alphabet(kind)
  {
    if exists sym: nat :: Matches(lens, sym, v) then
      var sym: nat :| Matches(lens, sym, v);
      Entry(SymOp(kind, sym), lens[sym], SymVal(kind, sym))
    else Entry(64, 1, 0)
  }

  predicate Accepted(kind: Kind, lens: seq<nat>) {
    |lens| <= Alphabet(kind) && (forall i :: 0 <= i < |lens| ==> lens[i] <= MAXBITS)
      && !InflateTable.BadLengths(kind, lens)
  }

  const ORDER: seq<nat> := [16, 17, 18, 0, 8, 7, 9, 6, 10, 5, 11, 4, 12, 3, 13, 2, 14, 1, 15]

  /** Where code length symbol s comes in ORDER. */
  function OrderOf(s: nat): (i: nat)
    requires s < 19
    ensures i < 19 && ORDER[i] == s
  {
    if s == 0 then 3 else if s >= 16 then s - 16 else if s == 8 then 4
    else if s < 8 then 5 + 2 * (7 - s) else 6 + 2 * (s - 9)
  }

  /** The lengths of the code length code, in symbol order, from those read in ORDER. */
  function Unpermute(cl: seq<nat>): (lens: seq<nat>)
    ensures |lens| == 19
  {
    seq(19, s requires 0 <= s < 19 => if OrderOf(s) < |cl| then cl[OrderOf(s)] else 0)
  }

  /** The lengths read so far, in the order read, from an array in symbol order. */
  function InOrder(lens: seq<nat>, have: nat): (cl: seq<nat>)
    requires have <= 19 <= |lens|
    ensures |cl| == have
  {
    seq(have, i requires 0 <= i < have => assert ORDER[i] < 19; lens[ORDER[i]])
  }

  /** Lengths of the fixed literal/length code (section 3.2.6 of RFC 1951). */
  const FIXED_LIT: seq<nat> := Repeat<nat>(8, 144) + Repeat<nat>(9, 112) + Repeat<nat>(7, 24) + Repeat<nat>(8, 8)
  const FIXED_DIST: seq<nat> := Repeat<nat>(5, 32)

  // ----- one step -----

  /** Drop k bits. */
  function Take(c: Config, k: nat): Config
    requires k <= c.n
  {
    c.(v := Hi(c.v, k), n := c.n - k)
  }

  predicate HasBit(op: nat, bit: nat)
    requires bit > 0
  {
    (op / bit) % 2 == 1
  }

  /** What the state machine maintains between steps. */
  predicate ValidSub(s: Sub) {
    match s
    case Len => true
    case LenExt(length, extra) => 3 <= length && length + Pow2(extra) <= 259 && extra <= 5
    case Dist(length) => 3 <= length <= 258
    case DistExt(length, offset, extra) => 3 <= length <= 258 && 1 <= offset && offset + Pow2(extra) <= 32769
      && extra <= 13
    case Match(length, offset) => 1 <= length <= 258 && 1 <= offset <= 32768
    case Lit(val) => val < 256
  }

  predicate Lengths(s: seq<nat>, max: nat) {
    forall i :: 0 <= i < |s| ==> s[i] <= max
  }

  predicate ValidPhase(p: Phase) {
    match p
    case Block => true
    case Stored => true
    case Copy(left) => left <= 65535
    case Table => true
    case LenLens(nlen, ndist, ncode, cl) =>
      257 <= nlen <= 286 && 1 <= ndist <= 30 && 4 <= ncode <= 19 && |cl| <= ncode && Lengths(cl, 7)
    case CodeLens(nlen, ndist, code, ls) =>
      257 <= nlen <= 286 && 1 <= ndist <= 30 && |code| == 19 && Lengths(code, 7) && Accepted(Codes, code)
      && |ls| <= nlen + ndist && Lengths(ls, 15)
    case Coded(lit, dist, sub) => Accepted(Lens, lit) && Accepted(Dists, dist) && ValidSub(sub)
    case Done => true
    case Bad => true
  }

  predicate Valid(c: Config) {
    c.v < Pow2(c.n) && ValidPhase(c.phase)
  }

  /** The match is further back than the output still available. */
  predicate TooFar(c: Config, w: Window, offset: nat) {
    var avail := if w.base <= w.size then |c.out| else |c.out| - w.base + w.size;
    offset > avail || offset > |c.out|
  }

  /** Steps that write a byte (or find that the byte to write is too far back). */
  predicate NeedsRoom(p: Phase) {
    (p.Copy? && p.left > 0) || (p.Coded? && (p.sub.Match? || p.sub.Lit?))
  }

  function BlockHeader(c: Config): Option<Config> {
    if c.last then Some(Take(c, c.n % 8).(phase := Done))
    else if c.n < 3 then None
    else
      var c1 := Take(c, 3).(last := Lo(c.v, 1) == 1);
      var kind := Lo(Hi(c.v, 1), 2);
      Some(c1.(phase :=
        if kind == 0 then Stored
        else if kind == 1 then Coded(FIXED_LIT, FIXED_DIST, Len)
        else if kind == 2 then Table
        else Bad))
  }

  function StoredHeader(c: Config): Option<Config> {
    if c.n % 8 != 0 then Some(Take(c, c.n % 8))
    else if c.n < 32 then None
    else
      var len := Lo(c.v, 16);
      if len != 65535 - Lo(Hi(c.v, 16), 16) then Some(c.(phase := Bad))
      else Some(Take(c, 32).(phase := Copy(len)))
  }

  function CopyByte(c: Config): Option<Config>
    requires c.phase.Copy?
  {
    if c.phase.left == 0 then Some(c.(phase := Block))
    else if c.n < 8 then None
    else
      assert Pow2(8) == 256;
      Some(Take(c, 8).(phase := Copy(c.phase.left - 1), out := c.out + [Lo(c.v, 8)]))
  }

  function TableHeader(c: Config): Option<Config> {
    if c.n < 14 then None
    else
      var nlen, ndist, ncode := Lo(c.v, 5) + 257, Lo(Hi(c.v, 5), 5) + 1, Lo(Hi(c.v, 10), 4) + 4;
      Some(Take(c, 14).(phase := if nlen > 286 || ndist > 30 then Bad else LenLens(nlen, ndist, ncode, [])))
  }

  function CodeLengthLengths(c: Config): Option<Config>
    requires c.phase.LenLens?
  {
    var LenLens(nlen, ndist, ncode, cl) := c.phase;
    if |cl| < ncode then
      if c.n < 3 then None
      else Some(Take(c, 3).(phase := LenLens(nlen, ndist, ncode, cl + [Lo(c.v, 3)])))
    else
      var code := Unpermute(cl);
      Some(c.(phase := if InflateTable.Result(Codes, code, 7) != 0 then Bad else CodeLens(nlen, ndist, code, [])))
  }

  /** Extra bits, repeated length and smallest count of the repeat codes 16, 17 and 18. */
  function RepeatBits(val: nat): nat {
    if val == 16 then 2 else if val == 17 then 3 else 7
  }

  ghost function OneLength(c: Config): Option<Config>
    requires c.phase.CodeLens? && Valid(c)
  {
    var CodeLens(nlen, ndist, code, ls) := c.phase;
    var e := Decode(Codes, code, c.v);
    if e.bits > c.n then None
    else if e.val < 16 then Some(Take(c, e.bits).(phase := CodeLens(nlen, ndist, code, ls + [e.val])))
    else
      var x := RepeatBits(e.val);
      if e.bits + x > c.n then None
      else if e.val == 16 && ls == [] then Some(Take(c, e.bits).(phase := Bad))
      else
        var len := if e.val == 16 then ls[|ls| - 1] else 0;
        var k := (if e.val == 18 then 11 else 3) + Lo(Hi(c.v, e.bits), x);
        var c1 := Take(c, e.bits + x);
        Some(c1.(phase := if |ls| + k > nlen + ndist then Bad else CodeLens(nlen, ndist, code, ls + Repeat(len, k))))
  }

  function BuildCodes(nlen: nat, ls: seq<nat>): Phase
    requires 257 <= nlen <= |ls|
  {
    if ls[256] == 0 then Bad
    else if InflateTable.Result(Lens, ls[..nlen], 9) != 0 then Bad
    else if InflateTable.Result(Dists, ls[nlen..], 6) != 0 then Bad
    else Coded(ls[..nlen], ls[nlen..], Len)
  }

  ghost function CodeLengths(c: Config): Option<Config>
    requires c.phase.CodeLens? && Valid(c)
  {
    var CodeLens(nlen, ndist, code, ls) := c.phase;
    if |ls| < nlen + ndist then OneLength(c) else Some(c.(phase := BuildCodes(nlen, ls)))
  }

  function WithSub(c: Config, s: Sub): Config
    requires c.phase.Coded?
  {
    c.(phase := Coded(c.phase.lit, c.phase.dist, s))
  }

  ghost function CodedStep(c: Config, w: Window): Option<Config>
    requires c.phase.Coded? && Valid(c)
  {
    match c.phase.sub
    case Len =>
      var e := Decode(Lens, c.phase.lit, c.v);
      if e.bits > c.n then None else
        var c1 := Take(c, e.bits);
        Some(if e.op == 0 then WithSub(c1, Lit(e.val))
             else if HasBit(e.op, 32) then c1.(phase := Block)
             else if HasBit(e.op, 64) then c1.(phase := Bad)
             else WithSub(c1, LenExt(e.val, e.op % 16)))
    case LenExt(length, extra) =>
      if extra > c.n then None else Some(WithSub(Take(c, extra), Dist(length + Lo(c.v, extra))))
    case Dist(length) =>
      var e := Decode(Dists, c.phase.dist, c.v);
      if e.bits > c.n then None else
        var c1 := Take(c, e.bits);
        Some(if HasBit(e.op, 64) then c1.(phase := Bad) else WithSub(c1, DistExt(length, e.val, e.op % 16)))
    case DistExt(length, offset, extra) =>
      if extra > c.n then None else Some(WithSub(Take(c, extra), Match(length, offset + Lo(c.v, extra))))
    case Match(length, offset) =>
      if TooFar(c, w, offset) then Some(c.(phase := Bad))
      else Some(WithSub(c,
        if length == 1 then Len else Match(length - 1, offset)).(out := c.out + [c.out[|c.out| - offset]]))
    case Lit(val) => Some(WithSub(c, Len).(out := c.out + [val]))
  }

  ghost function Next(c: Config, w: Window): Option<Config>
    requires Valid(c)
  {
    match c.phase
    case Block => BlockHeader(c)
    case Stored => StoredHeader(c)
    case Copy(_) => CopyByte(c)
    case Table => TableHeader(c)
    case LenLens(_, _, _, _) => CodeLengthLengths(c)
    case CodeLens(_, _, _, _) => CodeLengths(c)
    case Coded(_, _, _) => CodedStep(c, w)
    case Done => None
    case Bad => None
  }

  /** Order of the steps that consume no bits. */
  function Rank(p: Phase): nat {
    match p
    case Block => 2
    case Stored => 1
    case Copy(_) => 3
    case Table => 1
    case LenLens(_, _, _, _) => 8
    case CodeLens(_, _, _, _) => 7
    case Coded(_, _, sub) =>
      (match sub
       case Len => 4
       case LenExt(_, _) => 6
       case Dist(_) => 5
       case DistExt(length, _, _) => 6 + length
       case Match(length, _) => 5 + length
       case Lit(_) => 5)
    case Done => 0
    case Bad => 0
  }
}
