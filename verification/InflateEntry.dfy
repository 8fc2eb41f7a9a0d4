/** How many bits are held when inflate_fast() is entered: fewer than eight unless a code word is longer than that. */
module InflateEntry {
  import opened Bits
  import opened Bytes
  import opened Canonical
  import opened DecodeTable
  import opened InflateSpec
  import opened InflateSchedule
  import opened InflateWindow
  import opened InflateState
  import opened InflateSteps
  import opened InflateOutput
  import opened Inflate
  import InflateRun
  import InflateTable
  import InflateSmallWindow

  /** Whatever the state, in LEN with these codes fewer than eight bits are held. */
  ghost predicate FewHeld(lit: seq<nat>, dist: seq<nat>) {
    forall r: Regs :: r.mode == LEN && Sound(r, Coded(lit, dist, Sub.Len)) ==> r.bits < 8
  }

  predicate ShortWords(lens: seq<nat>) {
    forall s {:trigger lens[s]} :: 0 <= s < |lens| ==> lens[s] <= 8
  }

  lemma DecodedShort(lens: seq<nat>, v: nat)
    requires Accepted(Lens, lens) && ShortWords(lens)
    ensures Decode(Lens, lens, v).bits <= 8
  {
    hide CodeOf, Lo, Rev, InflateTable.BadLengths;
  }

  lemma ShortHeld(r: Regs, lit: seq<nat>, dist: seq<nat>)
    requires ShortWords(lit) && r.mode == LEN && Sound(r, Coded(lit, dist, Sub.Len))
    ensures r.bits < 8
  {
    hide Pow2, Next, Decode, InflateTable.BadLengths, Tight;
    var ph, w := Coded(lit, dist, Sub.Len), Window(0, 0);
    HeldFew(r, ph, w);
    LenNext(Config(r.last, ph, r.hold, r.bits, []), w);
    DecodedShort(lit, r.hold);
  }

  /** The first eight bits of a longer code word do not decode. */
  lemma LongWordHeld(lens: seq<nat>, s: nat, v: nat)
    requires Accepted(Lens, lens) && s < |lens| && lens[s] > 8 && v == Lo(Rev(CodeOf(lens, s), lens[s]), 8)
    ensures Decode(Lens, lens, v).bits > 8
  {
    hide CodeOf, Lo, Rev, Decode, InflateTable.BadLengths;
    var h := Rev(CodeOf(lens, s), lens[s]);
    LoSmall(h, lens[s]);
    InflateRun.NotOver(Lens, lens);
    InflateRun.Unique(Lens, lens, s, h);
    LoLo(h, 8);
    if Decode(Lens, lens, v).bits <= 8 { InflateRun.DecodeStable(Lens, lens, v, h, 8); }
  }

  lemma LoLo(x: nat, n: nat)
    ensures Lo(Lo(x, n), n) == Lo(x, n)
  {
    hide Lo;
    LoSmall(Lo(x, n), n);
  }

  lemma EightBits(x: nat)
    ensures Lo(x, 8) < Pow2(8)
  {
  }

  /** A state that holds the first eight bits of a longer code word. */
  lemma LongHeld(lit: seq<nat>, dist: seq<nat>, s: nat)
    requires Accepted(Lens, lit) && Accepted(Dists, dist) && s < |lit| && lit[s] > 8
    ensures !FewHeld(lit, dist)
  {
    hide Pow2, Next, Decode, InflateTable.BadLengths, CodeOf, Rev, Lo;
    var v := Lo(Rev(CodeOf(lit, s), lit[s]), 8);
    var ph := Coded(lit, dist, Sub.Len);
    var r := Regs(LEN, false, v, 8, 0, 0, 0, 0, 0, 0, 0);
    LongWordHeld(lit, s, v);
    EightBits(Rev(CodeOf(lit, s), lit[s]));
    LenNext(Config(false, ph, v, 8, []), Window(0, 0));
    assert Sound(r, ph);
  }

  /**
    The assumption on entry holds in every state if and only if no literal/length code word is longer than
    eight bits.
   */
  lemma FewHeldWhen(lit: seq<nat>, dist: seq<nat>)
    requires Accepted(Lens, lit) && Accepted(Dists, dist)
    ensures FewHeld(lit, dist) <==> ShortWords(lit)
  {
    hide Accepted, Sound;
    if ShortWords(lit) {
      forall r: Regs | r.mode == LEN && Sound(r, Coded(lit, dist, Sub.Len))
        ensures r.bits < 8
      {
        ShortHeld(r, lit, dist);
      }
    } else {
      var s :| 0 <= s < |lit| && lit[s] > 8;
      LongHeld(lit, dist, s);
    }
  }

  // ----- a run that enters with eight bits -----

  /** A last block with the fixed codes, and ones: five literals 255, and eight bits of a sixth. */
  const ONES: seq<Byte> := [251, 255, 255, 255, 255, 255, 255]

  function Ones(n: nat): nat {
    Pow2(n) - 1
  }

  lemma {:induction false} OnesSplit(n: nat, k: nat)
    requires k <= n
    ensures Hi(Ones(n), k) == Ones(n - k) && Lo(Ones(n), k) == Ones(k)
  {
    if k > 0 {
      assert Ones(n) / 2 == Ones(n - 1) && Ones(n) % 2 == 1;
      OnesSplit(n - 1, k - 1);
    }
  }

  lemma {:induction false} RevOnes(n: nat)
    ensures Rev(Ones(n), n) == Ones(n)
  {
    if n > 0 {
      assert Ones(n) / 2 == Ones(n - 1) && Ones(n) % 2 == 1;
      RevOnes(n - 1);
    }
  }

  /** The code word of literal 255 is nine ones. */
  lemma LastLiteral()
    ensures CodeOf(FIXED_LIT, 255) == Ones(9) && FIXED_LIT[255] == 9
  {
    hide Count, Used;
    var a, b := Repeat<nat>(8, 144), Repeat<nat>(9, 111);
    assert FIXED_LIT[..255] == a + b;
    InflateRun.CountAppend(a, b, 9);
    InflateRun.CountRepeat(8, 144, 9);
    InflateRun.CountRepeat(9, 111, 9);
    InflateRun.FixedUsed(8);
    assert Pow2(4) == 16;
    assert Pow2(9) == 512;
  }

  lemma DecodesOnes(n: nat)
    ensures n >= 9 ==> Decode(Lens, FIXED_LIT, Ones(n)) == Entry(0, 9, 255)
    ensures n == 8 ==> Decode(Lens, FIXED_LIT, Ones(n)).bits > 8
  {
    hide Lo, CodeOf, Decode, InflateTable.BadLengths, Rev, Ones;
    InflateRun.FixedAccepted();
    LastLiteral();
    RevOnes(9);
    if n >= 9 {
      OnesSplit(n, 9);
      assert Matches(FIXED_LIT, 255, Ones(n));
      InflateRun.NotOver(Lens, FIXED_LIT);
      InflateRun.Unique(Lens, FIXED_LIT, 255, Ones(n));
    } else if n == 8 {
      OnesSplit(9, 8);
      LongWordHeld(FIXED_LIT, 255, Ones(8));
    }
  }

  /** In LEN with n ones to come. */
  function AtOnes(n: nat, out: seq<Byte>): Config {
    Config(true, Coded(FIXED_LIT, FIXED_DIST, Sub.Len), Ones(n), n, out)
  }

  lemma AtOnesValid(n: nat, out: seq<Byte>)
    ensures Valid(AtOnes(n, out))
  {
    hide InflateTable.BadLengths, Pow2, FIXED_LIT, FIXED_DIST;
    InflateRun.FixedAccepted();
  }

  /** One literal. */
  lemma OneLiteral(n: nat, out: seq<Byte>, w: Window, limit: nat)
    requires n >= 9 && |out| < limit
    ensures Valid(AtOnes(n, out)) && Valid(AtOnes(n - 9, out + [255]))
    ensures RunTo(AtOnes(n, out), w, limit) == RunTo(AtOnes(n - 9, out + [255]), w, limit)
  {
    hide Next, RunTo, Decode, Valid, Ones, FIXED_LIT, FIXED_DIST;
    var c := AtOnes(n, out);
    AtOnesValid(n, out);
    AtOnesValid(n - 9, out + [255]);
    LenNext(c, w);
    DecodesOnes(n);
    RunStep(c, w, limit);
    var c1 := Next(c, w).value;
    OnesSplit(n, 9);
    LitNext(c1, w);
    RunStep(c1, w, limit);
  }

  /** All the literals there are. */
  lemma {:induction false} Literals(k: nat, out: seq<Byte>, w: Window, limit: nat)
    requires |out| + k <= limit
    ensures Valid(AtOnes(9 * k + 8, out))
    ensures RunTo(AtOnes(9 * k + 8, out), w, limit) == AtOnes(8, out + Repeat<Byte>(255, k))
    decreases k
  {
    hide Next, RunTo, Decode, Valid, Ones, FIXED_LIT, FIXED_DIST;
    AtOnesValid(9 * k + 8, out);
    if k == 0 {
      LenNext(AtOnes(8, out), w);
      DecodesOnes(8);
      RunStops(AtOnes(8, out), w, limit);
      assert out + Repeat<Byte>(255, 0) == out;
    } else {
      OneLiteral(9 * k + 8, out, w, limit);
      Literals(k - 1, out + [255], w, limit);
      assert out + [255] + Repeat<Byte>(255, k - 1) == out + Repeat<Byte>(255, k);
    }
  }

  lemma {:induction false} ValOnes(k: nat)
    ensures Val(Repeat<Byte>(255, k)) == Ones(8 * k)
  {
    hide Val;
    if k == 0 {
      InflateSmallWindow.ValCons(255, []);
      assert Repeat<Byte>(255, 0) == [];
    } else {
      ValOnes(k - 1);
      assert Repeat<Byte>(255, k) == [255] + Repeat<Byte>(255, k - 1);
      InflateSmallWindow.ValCons(255, Repeat<Byte>(255, k - 1));
      assert Pow2(8 * k) == 256 * Pow2(8 * k - 8) by { Pow2Shl(8 * k - 8, 8); ShlEight(Pow2(8 * k - 8)); }
    }
  }

  /** The header of the block, and what follows it. */
  lemma OnesHeader()
    ensures var v := Val(ONES); Lo(v, 1) == 1 && Lo(Hi(v, 1), 2) == 1 && Hi(v, 3) == Ones(53)
  {
    hide Val, Lo, Hi, Pow2;
    assert ONES == [251] + Repeat<Byte>(255, 6);
    InflateSmallWindow.ValCons(251, Repeat<Byte>(255, 6));
    ValOnes(6);
    Pow2Shl(48, 5);
    assert Pow2(53) == 32 * Pow2(48) by { ShlFive(Pow2(48)); }
    InflateSmallWindow.LowThree(Pow2(53) - 1);
  }

  lemma ShlFive(x: nat)
    ensures Shl(x, 5) == 32 * x
  {
    assert Shl(x, 1) == 2 * x;
    assert Shl(x, 3) == 8 * x;
  }

  /** One call on the seven bytes stops in LEN with eight bits of the stream left. */
  lemma OnesCall(room: nat, size: nat)
    requires room >= 5
    ensures Valid(INIT) && Call(INIT, Piece(ONES, room), size) == AtOnes(8, Repeat<Byte>(255, 5))
  {
    hide Next, RunTo, Val, Ones, FIXED_LIT, FIXED_DIST, Lo, Hi, Pow2, AtOnes;
    var w, c := Window(0, size), FeedBytes(INIT, ONES);
    InitStarts();
    BlockNext(c, w);
    OnesHeader();
    RunStep(c, w, room);
    HiHi(Val(ONES), 1, 2);
    StartsCoded(c, w);
    Literals(5, [], w, room);
    assert [] + Repeat<Byte>(255, 5) == Repeat<Byte>(255, 5);
  }

  lemma InitStarts()
    ensures Valid(INIT) && FeedBytes(INIT, ONES) == Config(false, Block, Val(ONES), 56, [])
      && Valid(FeedBytes(INIT, ONES))
  {
    hide Val, Pow2;
    ShlZero(Val(ONES));
    assert |ONES| == 7;
  }

  lemma StartsCoded(c: Config, w: Window)
    requires Valid(c) && c == Config(false, Block, Val(ONES), 56, [])
    requires Lo(c.v, 1) == 1 && Lo(Hi(c.v, 1), 2) == 1 && Hi(c.v, 3) == Ones(53)
    ensures Next(c, w) == Some(AtOnes(53, []))
  {
    hide Next, Val, Ones, FIXED_LIT, FIXED_DIST, Lo, Hi, Pow2;
    BlockNext(c, w);
    HiHi(c.v, 1, 2);
  }

  /**
    The first call leaves eight bits in the accumulator; a second one with enough input and space enters
    inflate_fast() so.
   */
  method EightHeld(wbits: nat) returns (s: State)
    ensures fresh(s) && Ready(s) && Settled(s.r.mode) == LEN && s.r.bits == 8
    ensures s.total == Repeat<Byte>(255, 5)
  {
    hide Good, PhaseOf, Conf, ConfOf, Fits, SlidingWindow.Valid, Valid, Call, Pow2, INIT, AtOnes, Repeat;
    s := new State(wbits);
    GoodFits(s.r, s.l, s.k, s.Arr());
    var buf := new Byte[300];
    OnesCall(300, Pow2(wbits));
    var rest, put, ret := Inflate.Inflate(s, ONES, buf, false, []);
    assert ONES[0..] == ONES;
    GoodFits(s.r, s.l, s.k, s.Arr());
    HeldIs(s.r, s.l, s.k, s.Arr(), rest, s.total);
  }

  /** What the registers are when the machine is at the ones with no input unread. */
  lemma HeldIs(r: Regs, l: Links, k: CodesInUse, m: Arrays, rest: seq<Byte>, out: seq<Byte>)
    requires Good(r, l, k, m) && Fits(r, m.lens) && ConfOf(r, k, m, rest, out) == AtOnes(8, Repeat<Byte>(255, 5))
    ensures out == Repeat<Byte>(255, 5) && !Over(r.mode) && Settled(r.mode) == LEN && (rest == [] ==> r.bits == 8)
  {
    hide HasTables, Sound, Virtual, Ones, FIXED_LIT, FIXED_DIST, Repeat;
  }
}
