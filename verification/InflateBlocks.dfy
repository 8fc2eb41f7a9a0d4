/** The inflate machine reads whole blocks, and streams of blocks, as the format writes them. */
module InflateBlocks {
  import opened Bits
  import opened Bytes
  import opened Canonical
  import opened DecodeTable
  import opened InflateSpec
  import opened InflateSchedule
  import opened InflateSteps
  import opened DeflateTokens
  import opened DeflateEncode
  import opened InflateFormat
  import InflateRun
  import InflateTable
  import InflateFast

  // ----- the codes of a dynamic block -----

  /** The order in which the lengths of the code length code come. */
  lemma OrderIs(k: nat)
    requires k < 19
    ensures ORDER[k] == OrderAt(k) && OrderOf(OrderAt(k)) == k
  {
  }

  lemma OrderBack(s: nat)
    requires s < 19
    ensures OrderAt(OrderOf(s)) == s
  {
  }

  /** The first i lengths in that order. */
  function FirstInOrder(code: seq<nat>, i: nat): (cl: seq<nat>)
    requires |code| == 19 && i <= 19
    ensures |cl| == i
  {
    seq(i, k requires 0 <= k < i => code[OrderAt(k)])
  }

  /** They give back the code, as the rest is zero. */
  lemma Unpermuted(h: Header)
    requires IsHeader(h)
    ensures Unpermute(FirstInOrder(h.code, h.ncode)) == h.code
  {
    hide Runs, LengthsOf;
    var cl := FirstInOrder(h.code, h.ncode);
    forall s | 0 <= s < 19
      ensures Unpermute(cl)[s] == h.code[s]
    {
      OrderBack(s);
      if OrderOf(s) >= h.ncode { assert h.code[OrderAt(OrderOf(s))] == 0; }
    }
  }

  function AtLenLens(c: Config, h: Header, i: nat, s: Stream): Config
    requires IsHeader(h) && i <= h.ncode
  {
    On(c, s).(phase := LenLens(h.nlen, h.ndist, h.ncode, FirstInOrder(h.code, i)))
  }

  lemma AtLenLensValid(c: Config, h: Header, i: nat, s: Stream)
    requires IsHeader(h) && i <= h.ncode && IsStream(s)
    ensures Valid(AtLenLens(c, h, i, s))
  {
    hide Pow2, Runs, LengthsOf;
  }

  lemma SmallField(x: nat, n: nat)
    requires n in {1, 2, 3, 4, 5, 7, 16} && x < (match n case 1 => 2 case 2 => 4 case 3 => 8 case 4 => 16 case 5 => 32
      case 7 => 128 case _ => 65536)
    ensures IsStream(Stream(x, n))
  {
    hide Pow2;
    InflateRun.Pow2Values();
    DeflateFormatPowers();
  }

  lemma DeflateFormatPowers()
    ensures Pow2(1) == 2 && Pow2(2) == 4
  {
  }

  lemma {:induction false} OrderIsStream(code: seq<nat>, i: nat, ncode: nat)
    requires |code| == 19 && i <= ncode <= 19 && forall s {:trigger code[s]} :: 0 <= s < 19 ==> code[s] <= 7
    ensures IsStream(OrderStream(code, i, ncode))
    decreases ncode - i
  {
    hide Pow2, IsStream;
    if i == ncode {
      NothingIsStream();
    } else {
      OrderIsStream(code, i + 1, ncode);
      SmallField(code[OrderAt(i)], 3);
      ThenIsStream(Stream(code[OrderAt(i)], 3), OrderStream(code, i + 1, ncode));
    }
  }

  lemma NothingIsStream()
    ensures IsStream(NOTHING)
  {
  }

  /** The lengths of the code length code from place i on. */
  lemma {:induction false} OrderRead(c: Config, w: Window, h: Header, i: nat, rest: Stream)
    requires IsHeader(h) && i <= h.ncode && IsStream(rest)
    ensures Leads(AtLenLens(c, h, i, Then(OrderStream(h.code, i, h.ncode), rest)), AtLenLens(c, h, h.ncode, rest), w)
    decreases h.ncode - i
  {
    hide Pow2, Next, RunAll, Lo, Hi, Shl, IsHeader, Unpermute, Valid, IsStream, Then;
    HeaderFacts(h);
    if i == h.ncode {
      ThenNothing(rest);
      AtLenLensValid(c, h, i, rest);
    } else {
      var x := Stream(h.code[OrderAt(i)], 3);
      var more := Then(OrderStream(h.code, i + 1, h.ncode), rest);
      OrderIsStream(h.code, i + 1, h.ncode);
      ThenIsStream(OrderStream(h.code, i + 1, h.ncode), rest);
      SmallField(x.v, 3);
      ThenThen(x, OrderStream(h.code, i + 1, h.ncode), rest);
      ThenIsStream(x, more);
      var c0, c1 := AtLenLens(c, h, i, Then(x, more)), AtLenLens(c, h, i + 1, more);
      AtLenLensValid(c, h, i, Then(x, more));
      TakeFirst(c.(phase := c0.phase), x, more);
      LenLensNext(c0, w);
      assert FirstInOrder(h.code, i + 1) == FirstInOrder(h.code, i) + [x.v];
      Step(c0, c1, w);
      OrderRead(c, w, h, i + 1, rest);
    }
  }

  lemma HeaderFacts(h: Header)
    requires IsHeader(h)
    ensures 257 <= h.nlen <= 286 && 1 <= h.ndist <= 30 && 4 <= h.ncode <= 19 && |h.code| == 19
    ensures forall s {:trigger h.code[s]} :: 0 <= s < 19 ==> h.code[s] <= 7
    ensures Runs(h.code, [], h.runs) && |LengthsOf(h)| == h.nlen + h.ndist
  {
    hide Runs, LengthsOf;
  }

  // ----- code lengths -----

  predicate Taken(h: Header) {
    IsHeader(h) && InflateTable.Result(Codes, h.code, 7) == 0
  }

  function AtLengths(c: Config, h: Header, ls: seq<nat>, s: Stream): Config {
    On(c, s).(phase := CodeLens(h.nlen, h.ndist, h.code, ls))
  }

  lemma AtLengthsValid(c: Config, h: Header, ls: seq<nat>, s: Stream)
    requires Taken(h) && |ls| <= h.nlen + h.ndist && Lengths(ls, 15) && IsStream(s)
    ensures Valid(AtLengths(c, h, ls, s)) && Accepted(Codes, h.code)
  {
    hide Pow2, Runs, LengthsOf, InflateTable.BadLengths, InflateTable.TotalSpace;
  }

  lemma {:induction false} ExtendAllGrows(ls: seq<nat>, rs: seq<Run>)
    ensures ls <= ExtendAll(ls, rs)
    decreases rs
  {
    if rs != [] {
      ExtendAllGrows(Extend(ls, rs[0]), rs[1..]);
      Prefix(ls, Extend(ls, rs[0]), ExtendAll(ls, rs));
    }
  }

  lemma Prefix(a: seq<nat>, b: seq<nat>, c: seq<nat>)
    requires a <= b <= c
    ensures a <= c
  {
    assert c[..|a|] == b[..|a|];
  }

  lemma ExtendLengths(ls: seq<nat>, r: Run)
    requires Lengths(ls, 15) && IsRun(r) && (r.Again? ==> ls != [])
    ensures Lengths(Extend(ls, r), 15) && |Extend(ls, r)| > |ls|
  {
  }

  lemma RunIsStream(code: seq<nat>, r: Run)
    requires IsRun(r) && RunSymbol(r) < |code|
    ensures IsStream(RunStream(code, r)) && IsStream(RunExtra(r))
  {
    hide Pow2, Word;
    WordIsStream(code, RunSymbol(r));
    NothingIsStream();
    match r {
      case One(_) =>
      case Again(k) => SmallField(k - 3, 2);
      case FewZeros(k) => SmallField(k - 3, 3);
      case ManyZeros(k) => SmallField(k - 11, 7);
    }
    ThenIsStream(Word(code, RunSymbol(r)), RunExtra(r));
  }

  lemma {:induction false} RunsAreStream(code: seq<nat>, ls: seq<nat>, rs: seq<Run>)
    requires Runs(code, ls, rs)
    ensures IsStream(RunsStream(code, ls, rs))
    decreases rs
  {
    hide Pow2, RunStream, IsStream, Extend;
    if rs == [] {
      NothingIsStream();
    } else {
      RunsAreStream(code, Extend(ls, rs[0]), rs[1..]);
      RunIsStream(code, rs[0]);
      ThenIsStream(RunStream(code, rs[0]), RunsStream(code, Extend(ls, rs[0]), rs[1..]));
    }
  }

  /** One code length, or a run of them. */
  lemma RunRead(c: Config, w: Window, h: Header, ls: seq<nat>, r: Run, rest: Stream)
    requires Taken(h) && Lengths(ls, 15) && IsStream(rest)
    requires IsRun(r) && IsSymbol(h.code, RunSymbol(r)) && (r.Again? ==> ls != [])
    requires |Extend(ls, r)| <= h.nlen + h.ndist
    ensures Leads(AtLengths(c, h, ls, Then(RunStream(h.code, r), rest)), AtLengths(c, h, Extend(ls, r), rest), w)
  {
    hide Pow2, Next, RunAll, Lo, Hi, Shl, Taken, Valid, Decode, Word, IsStream, Then, Accepted;
    var s, x := RunSymbol(r), RunExtra(r);
    ExtendLengths(ls, r);
    RunIsStream(h.code, r);
    WordIsStream(h.code, s);
    ThenIsStream(x, rest);
    ThenIsStream(Word(h.code, s), Then(x, rest));
    ThenThen(Word(h.code, s), x, rest);
    var c0, c1 := AtLengths(c, h, ls, Then(Word(h.code, s), Then(x, rest))), AtLengths(c, h, Extend(ls, r), rest);
    AtLengthsValid(c, h, ls, Then(Word(h.code, s), Then(x, rest)));
    DecodesWord(Codes, h.code, s, Then(x, rest));
    var d := c.(phase := c0.phase);
    TakeFirst(d, Word(h.code, s), Then(x, rest));
    TakeFirst(d, x, rest);
    ThenFirst(Word(h.code, s), Then(x, rest));
    OneLengthNext(c0, w);
    TakeBoth(c0, h.code[s], x.n);
    RunCount(ls, r, x.v);
    Step(c0, c1, w);
  }

  lemma TakeBoth(c: Config, a: nat, b: nat)
    requires a + b <= c.n
    ensures Take(c, a + b) == Take(Take(c, a), b)
  {
    hide Hi;
    HiHi(c.v, a, b);
  }

  /** The count and the length that are read. */
  lemma RunCount(ls: seq<nat>, r: Run, x: nat)
    requires IsRun(r) && x == RunExtra(r).v && (r.Again? ==> ls != [])
    ensures RunExtra(r).n == ExtraBits(RunSymbol(r))
    ensures ls + Repeat(RepeatLen(RunSymbol(r), if ls == [] then 0 else ls[|ls| - 1]), RepeatCount(RunSymbol(r), x)) ==
      Extend(ls, r)
  {
  }

  /** All code lengths. */
  lemma {:induction false} RunsRead(c: Config, w: Window, h: Header, ls: seq<nat>, rs: seq<Run>, rest: Stream)
    requires Taken(h) && Lengths(ls, 15) && IsStream(rest) && Runs(h.code, ls, rs)
    requires |ExtendAll(ls, rs)| <= h.nlen + h.ndist
    ensures Lengths(ExtendAll(ls, rs), 15)
    ensures Leads(AtLengths(c, h, ls, Then(RunsStream(h.code, ls, rs), rest)), AtLengths(c, h, ExtendAll(ls, rs), rest),
      w)
    decreases rs
  {
    hide Pow2, Next, RunAll, Taken, Valid, IsStream, Then, Extend, RunStream, Lengths;
    if rs == [] {
      ThenNothing(rest);
      ExtendAllGrows(ls, rs);
      AtLengthsValid(c, h, ls, rest);
    } else {
      var r := rs[0];
      var ls1 := Extend(ls, r);
      var more := RunsStream(h.code, ls1, rs[1..]);
      ExtendAllGrows(ls1, rs[1..]);
      ExtendLengths(ls, r);
      RunsAreStream(h.code, ls1, rs[1..]);
      ThenIsStream(more, rest);
      ThenThen(RunStream(h.code, r), more, rest);
      RunRead(c, w, h, ls, r, Then(more, rest));
      RunsRead(c, w, h, ls1, rs[1..], rest);
    }
  }

  // ----- the header of a dynamic block -----

  lemma TableValid(c: Config, s: Stream)
    requires IsStream(s)
    ensures Valid(On(c, s).(phase := Table))
  {
  }

  /** The three counts. */
  lemma CountsRead(c: Config, w: Window, h: Header, rest: Stream)
    requires IsHeader(h) && IsStream(rest)
    ensures Leads(On(c, Then(Stream(h.nlen - 257, 5), Then(Stream(h.ndist - 1, 5), Then(Stream(h.ncode - 4, 4), rest))))
      .(phase := Table), AtLenLens(c, h, 0, rest), w)
  {
    hide Pow2, Next, RunAll, Lo, Hi, Shl, IsHeader, Valid, IsStream, Then;
    HeaderFacts(h);
    var x, y, z := Stream(h.nlen - 257, 5), Stream(h.ndist - 1, 5), Stream(h.ncode - 4, 4);
    SmallField(x.v, 5);
    SmallField(y.v, 5);
    SmallField(z.v, 4);
    ThenIsStream(z, rest);
    ThenIsStream(y, Then(z, rest));
    ThenIsStream(x, Then(y, Then(z, rest)));
    var d := c.(phase := Table);
    var c0 := On(d, Then(x, Then(y, Then(z, rest))));
    TakeFirst(d, x, Then(y, Then(z, rest)));
    TakeFirst(d, y, Then(z, rest));
    TakeFirst(d, z, rest);
    TakeBoth(c0, 5, 5);
    TakeBoth(c0, 10, 4);
    TableValid(c, Then(x, Then(y, Then(z, rest))));
    TableNext(c0, w);
    assert FirstInOrder(h.code, 0) == [];
    Step(c0, AtLenLens(c, h, 0, rest), w);
  }

  /** The code length code is complete, and its table is built. */
  lemma CodeRead(c: Config, w: Window, h: Header, rest: Stream)
    requires Taken(h) && IsStream(rest)
    ensures Leads(AtLenLens(c, h, h.ncode, rest), AtLengths(c, h, [], rest), w)
  {
    hide Pow2, Runs, LengthsOf, Next, RunAll, Unpermute;
    AtLenLensValid(c, h, h.ncode, rest);
    Unpermuted(h);
    LastLenLens(AtLenLens(c, h, h.ncode, rest), w);
    Step(AtLenLens(c, h, h.ncode, rest), AtLengths(c, h, [], rest), w);
  }

  lemma LastLenLens(c: Config, w: Window)
    requires Valid(c) && c.phase.LenLens? && |c.phase.cl| == c.phase.ncode
      && InflateTable.Result(Codes, Unpermute(c.phase.cl), 7) == 0
    ensures Next(c, w) == Some(c.(phase := CodeLens(c.phase.nlen, c.phase.ndist, Unpermute(c.phase.cl), [])))
  {
    hide Unpermute, InflateTable.Result, Pow2;
  }

  /** The codes of a dynamic block are such that inflate_table() takes them. */
  predicate Usable(h: Header) {
    && Taken(h) && LengthsOf(h)[256] > 0
    && InflateTable.Result(Lens, LitLens(h), 9) == 0 && InflateTable.Result(Dists, DistLens(h), 6) == 0
  }

  lemma UsableAccepted(h: Header)
    requires Usable(h) && Lengths(LengthsOf(h), 15)
    ensures Accepted(Lens, LitLens(h)) && Accepted(Dists, DistLens(h)) && IsSymbol(LitLens(h), 256)
  {
    hide Runs, LengthsOf, InflateTable.BadLengths, InflateTable.TotalSpace;
  }

  /** All code lengths are read, and the two tables are built. */
  lemma LengthsDone(c: Config, w: Window, h: Header, rest: Stream)
    requires Usable(h) && IsStream(rest) && Lengths(LengthsOf(h), 15)
    ensures Leads(AtLengths(c, h, LengthsOf(h), rest),
      On(c, rest).(phase := Coded(LitLens(h), DistLens(h), Sub.Len)), w)
  {
    hide Pow2, Runs, LengthsOf, Next, RunAll, InflateTable.Result, IsStream, Valid;
    AtLengthsValid(c, h, LengthsOf(h), rest);
    LastLength(AtLengths(c, h, LengthsOf(h), rest), w);
    Step(AtLengths(c, h, LengthsOf(h), rest), On(c, rest).(phase := Coded(LitLens(h), DistLens(h), Sub.Len)), w);
  }

  lemma LastLength(c: Config, w: Window)
    requires Valid(c) && c.phase.CodeLens? && |c.phase.ls| == c.phase.nlen + c.phase.ndist
    ensures Next(c, w) == Some(c.(phase := BuildCodes(c.phase.nlen, c.phase.ls)))
  {
    hide BuildCodes, Pow2, InflateTable.Result;
  }

  lemma HeaderIsStream(h: Header)
    requires IsHeader(h)
    ensures IsStream(HeaderStream(h))
  {
    hide Pow2, IsHeader, IsStream, Then, Runs;
    HeaderFacts(h);
    SmallField(h.nlen - 257, 5);
    SmallField(h.ndist - 1, 5);
    SmallField(h.ncode - 4, 4);
    OrderIsStream(h.code, 0, h.ncode);
    RunsAreStream(h.code, [], h.runs);
    var a, b := OrderStream(h.code, 0, h.ncode), RunsStream(h.code, [], h.runs);
    ThenIsStream(a, b);
    ThenIsStream(Stream(h.ncode - 4, 4), Then(a, b));
    ThenIsStream(Stream(h.ndist - 1, 5), Then(Stream(h.ncode - 4, 4), Then(a, b)));
    ThenIsStream(Stream(h.nlen - 257, 5), Then(Stream(h.ndist - 1, 5), Then(Stream(h.ncode - 4, 4), Then(a, b))));
  }

  /** The header as it is read, with what follows. */
  lemma HeaderParts(h: Header, rest: Stream)
    requires IsHeader(h)
    ensures Then(HeaderStream(h), rest) ==
      Then(Stream(h.nlen - 257, 5), Then(Stream(h.ndist - 1, 5), Then(Stream(h.ncode - 4, 4),
        Then(OrderStream(h.code, 0, h.ncode), Then(RunsStream(h.code, [], h.runs), rest)))))
  {
    hide IsHeader, Then, Runs;
    HeaderFacts(h);
    var a, b := OrderStream(h.code, 0, h.ncode), RunsStream(h.code, [], h.runs);
    var x, y, z := Stream(h.nlen - 257, 5), Stream(h.ndist - 1, 5), Stream(h.ncode - 4, 4);
    ThenThen(x, Then(y, Then(z, Then(a, b))), rest);
    ThenThen(y, Then(z, Then(a, b)), rest);
    ThenThen(z, Then(a, b), rest);
    ThenThen(a, b, rest);
  }

  /** From the type of a dynamic block to its codes. */
  lemma HeaderRead(c: Config, w: Window, h: Header, rest: Stream)
    requires Usable(h) && IsStream(rest)
    ensures Lengths(LengthsOf(h), 15)
    ensures Leads(On(c, Then(HeaderStream(h), rest)).(phase := Table),
      On(c, rest).(phase := Coded(LitLens(h), DistLens(h), Sub.Len)), w)
  {
    hide Pow2, IsHeader, RunAll, Runs, RunsStream, OrderStream, IsStream, Then, Valid, InflateTable.Result, ExtendAll;
    HeaderFacts(h);
    var a, b := OrderStream(h.code, 0, h.ncode), RunsStream(h.code, [], h.runs);
    OrderIsStream(h.code, 0, h.ncode);
    RunsAreStream(h.code, [], h.runs);
    ThenIsStream(b, rest);
    ThenIsStream(a, Then(b, rest));
    HeaderParts(h, rest);
    CountsRead(c, w, h, Then(a, Then(b, rest)));
    OrderRead(c, w, h, 0, Then(b, rest));
    CodeRead(c, w, h, Then(b, rest));
    RunsRead(c, w, h, [], h.runs, rest);
    LengthsDone(c, w, h, rest);
  }

  // ----- stored blocks -----

  lemma {:induction false} BytewiseIs(s: seq<Byte>)
    ensures IsStream(Bytewise(s))
  {
    hide Val, Pow2;
  }

  lemma BytewiseFirst(s: seq<Byte>)
    requires s != []
    ensures Bytewise(s) == Then(Stream(s[0], 8), Bytewise(s[1..])) && IsStream(Stream(s[0], 8))
  {
    InflateRun.Pow2Values();
    ShlEight(Val(s[1..]));
  }

  lemma CopyNext(c: Config, w: Window)
    requires Valid(c) && c.phase.Copy? && (c.phase.left > 0 ==> c.n >= 8)
    ensures c.phase.left == 0 ==> Next(c, w) == Some(c.(phase := Phase.Block))
    ensures Lo(c.v, 8) < 256
    ensures c.phase.left > 0 ==>
      Next(c, w) == Some(Take(c, 8).(phase := Phase.Copy(c.phase.left - 1), out := c.out + [Lo(c.v, 8)]))
  {
    hide Hi;
    InflateRun.Pow2Values();
  }

  lemma CopyValid(c: Config, left: nat, s: Stream)
    requires left <= 65535 && IsStream(s)
    ensures Valid(On(c, s).(phase := Phase.Copy(left)))
  {
  }

  /** The bytes of a stored block. */
  lemma {:induction false} BytesRead(c: Config, w: Window, data: seq<Byte>, rest: Stream)
    requires |data| <= 65535 && IsStream(rest)
    ensures Leads(On(c, Then(Bytewise(data), rest)).(phase := Phase.Copy(|data|)),
      On(c, rest).(phase := Phase.Block, out := c.out + data), w)
    decreases |data|
  {
    hide Pow2, Next, RunAll, Lo, Hi, Shl, Valid, IsStream, Then, Val;
    BytewiseIs(data);
    ThenIsStream(Bytewise(data), rest);
    var c0 := On(c, Then(Bytewise(data), rest)).(phase := Phase.Copy(|data|));
    CopyValid(c, |data|, Then(Bytewise(data), rest));
    if data == [] {
      NoBytes(rest);
      assert c.out + data == c.out;
      CopyNext(c0, w);
      Step(c0, On(c, rest).(phase := Phase.Block, out := c.out + data), w);
    } else {
      var x, more := Stream(data[0], 8), Bytewise(data[1..]);
      BytewiseFirst(data);
      ThenThen(x, more, rest);
      TakeFirst(c.(phase := c0.phase), x, Then(more, rest));
      CopyNext(c0, w);
      var c1 := c.(out := c.out + [data[0]]);
      Step(c0, On(c1, Then(more, rest)).(phase := Phase.Copy(|data| - 1)), w);
      BytesRead(c1, w, data[1..], rest);
      assert c1.out + data[1..] == c.out + data;
    }
  }

  lemma NoBytes(rest: Stream)
    ensures Then(Bytewise([]), rest) == rest
  {
    ThenNothing(rest);
  }

  lemma StoredValid(c: Config, s: Stream)
    requires IsStream(s)
    ensures Valid(On(c, s).(phase := Stored))
  {
  }

  /** The filler up to the byte boundary. */
  lemma FillerRead(c: Config, w: Window, filler: Stream, rest: Stream)
    requires IsStream(filler) && IsStream(rest) && filler.n < 8 && rest.n % 8 == 0
    ensures Leads(On(c, Then(filler, rest)).(phase := Stored), On(c, rest).(phase := Stored), w)
  {
    hide Pow2, Next, RunAll, Lo, Hi, Shl, Valid, IsStream, Then;
    StoredValid(c, rest);
    if filler.n == 0 {
      EmptyStream(filler);
      ThenNothing(rest);
    } else {
      ThenIsStream(filler, rest);
      StoredValid(c, Then(filler, rest));
      var c0 := On(c, Then(filler, rest)).(phase := Stored);
      ThenLength(filler, rest);
      TakeFirst(c.(phase := Stored), filler, rest);
      StoredNext(c0, w);
      Step(c0, On(c, rest).(phase := Stored), w);
    }
  }

  lemma EmptyStream(s: Stream)
    requires IsStream(s) && s.n == 0
    ensures s == NOTHING
  {
  }

  lemma ThenLength(a: Stream, b: Stream)
    ensures Then(a, b).n == a.n + b.n
  {
  }

  /** A stored block after its type. */
  lemma PlainRead(c: Config, w: Window, filler: Stream, data: seq<Byte>, rest: Stream)
    requires IsStream(filler) && IsStream(rest) && filler.n < 8 && rest.n % 8 == 0 && |data| <= 65535
    ensures var s := Then(filler,
      Then(Stream(|data|, 16), Then(Stream(65535 - |data|, 16), Then(Bytewise(data), rest))));
      Leads(On(c, s).(phase := Stored), On(c, rest).(phase := Phase.Block, out := c.out + data), w)
  {
    hide Pow2, Next, RunAll, Lo, Hi, Shl, Valid, IsStream, Then, Bytewise;
    var x, y, body := Stream(|data|, 16), Stream(65535 - |data|, 16), Then(Bytewise(data), rest);
    BytewiseIs(data);
    ThenIsStream(Bytewise(data), rest);
    SmallField(x.v, 16);
    SmallField(y.v, 16);
    ThenIsStream(y, body);
    ThenIsStream(x, Then(y, body));
    BytewiseLength(data);
    ThenLength(Bytewise(data), rest);
    ThenLength(y, body);
    ThenLength(x, Then(y, body));
    FillerRead(c, w, filler, Then(x, Then(y, body)));
    var d := c.(phase := Stored);
    var c0 := On(d, Then(x, Then(y, body)));
    StoredValid(c, Then(x, Then(y, body)));
    TakeFirst(d, x, Then(y, body));
    TakeFirst(d, y, body);
    TakeBoth(c0, 16, 16);
    StoredNext(c0, w);
    Step(c0, On(c, body).(phase := Phase.Copy(|data|)), w);
    BytesRead(c, w, data, rest);
  }

  lemma BytewiseLength(data: seq<Byte>)
    ensures Bytewise(data).n == 8 * |data|
  {
  }
}
