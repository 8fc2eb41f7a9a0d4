/** The inflate machine reads what the format writes: tokens, code lengths, and whole blocks. */
module InflateFormat {
  import opened Bits
  import opened Bytes
  import opened Canonical
  import opened DecodeTable
  import opened InflateSpec
  import opened InflateSchedule
  import opened InflateSteps
  import opened InflateCopy
  import opened InflateOutput
  import opened DeflateTokens
  import opened DeflateFormat
  import opened DeflateEncode
  import InflateRun
  import InflateTable

  // ----- runs -----

  /** The configuration with these bits to come. */
  function On(c: Config, s: Stream): Config {
    c.(v := s.v, n := s.n)
  }

  /** k steps. */
  ghost function Steps(c: Config, w: Window, k: nat): Option<Config>
    requires Valid(c)
    decreases k
  {
    if k == 0 then Some(c)
    else if Next(c, w).None? then None
    else
      InflateRun.StepIsGood(c, w);
      Steps(Next(c, w).value, w, k - 1)
  }

  /** Both end alike. */
  ghost predicate Leads(c: Config, c': Config, w: Window) {
    Valid(c) && Valid(c') && RunAll(c, w) == RunAll(c', w)
  }

  lemma Step(c: Config, c': Config, w: Window)
    requires Valid(c) && Next(c, w) == Some(c')
    ensures Leads(c, c', w)
  {
    hide Valid, Next;
    InflateRun.StepIsGood(c, w);
  }

  // ----- code words and fields -----

  lemma TakeFirst(c: Config, a: Stream, b: Stream)
    requires IsStream(a)
    ensures a.n <= Then(a, b).n && Take(On(c, Then(a, b)), a.n) == On(c, b) && Lo(On(c, Then(a, b)).v, a.n) == a.v
  {
    hide Lo, Hi, Pow2;
    ThenFirst(a, b);
  }

  lemma WordIsStream(lens: seq<nat>, sym: nat)
    requires sym < |lens|
    ensures IsStream(Word(lens, sym)) && Word(lens, sym).n == lens[sym]
  {
    hide CodeOf, Pow2;
  }

  /** A code word is decoded whatever follows it. */
  lemma DecodesWord(kind: Kind, lens: seq<nat>, sym: nat, rest: Stream)
    requires Accepted(kind, lens) && IsSymbol(lens, sym)
    ensures Decode(kind, lens, Then(Word(lens, sym), rest).v) == Entry(SymOp(kind, sym), lens[sym], SymVal(kind, sym))
  {
    hide CodeOf, Rev, Lo, Hi, Shl, Pow2, SymOp, SymVal, Decode, InflateTable.BadLengths;
    WordIsStream(lens, sym);
    ThenFirst(Word(lens, sym), rest);
    InflateRun.NotOver(kind, lens);
    InflateRun.Unique(kind, lens, sym, Then(Word(lens, sym), rest).v);
  }

  // ----- lengths and distances -----

  predicate InCodes(c: Config, lit: seq<nat>, dist: seq<nat>) {
    c.phase.Coded? && c.phase.lit == lit && c.phase.dist == dist && Accepted(Lens, lit) && Accepted(Dists, dist)
  }

  function At(c: Config, sub: Sub, s: Stream): Config
    requires c.phase.Coded?
  {
    On(WithSub(c, sub), s)
  }

  lemma AtValid(c: Config, lit: seq<nat>, dist: seq<nat>, sub: Sub, s: Stream)
    requires InCodes(c, lit, dist) && ValidSub(sub) && IsStream(s)
    ensures Valid(At(c, sub, s))
  {
    hide Pow2, Accepted, ValidSub;
  }

  lemma OpBits(e: nat)
    requires e <= 13
    ensures !HasBit(16 + e, 32) && !HasBit(16 + e, 64) && (16 + e) % 16 == e && 16 + e != 0
  {
  }

  /** In LEN and LENEXT: the symbol and the extra bits of length n. */
  lemma LengthRead(c: Config, w: Window, lit: seq<nat>, dist: seq<nat>, n: nat, rest: Stream)
    requires InCodes(c, lit, dist) && 3 <= n <= 258 && IsSymbol(lit, LengthSymbol(n)) && IsStream(rest)
    ensures var c1 := At(c, LenExt(SymVal(Lens, LengthSymbol(n)), LengthBits(n)),
        Then(Stream(LengthRest(n), LengthBits(n)), rest));
      && Valid(At(c, Sub.Len, Then(LengthStream(lit, n), rest))) && Valid(c1)
      && Next(At(c, Sub.Len, Then(LengthStream(lit, n), rest)), w) == Some(c1)
      && Next(c1, w) == Some(At(c, Sub.Dist(n), rest))
  {
    hide Pow2, Accepted, Next, SymOp, SymVal, Lo, Hi, Shl, Decode, Word, LengthRest, LengthBits, HasBit;
    var s, e, extra := LengthSymbol(n), LengthBits(n), Stream(LengthRest(n), LengthBits(n));
    LengthDenoted(n);
    var c0 := At(c, Sub.Len, Then(LengthStream(lit, n), rest));
    var c1 := At(c, LenExt(SymVal(Lens, s), e), Then(extra, rest));
    WordIsStream(lit, s);
    ThenIsStream(extra, rest);
    ThenIsStream(Word(lit, s), Then(extra, rest));
    ThenThen(Word(lit, s), extra, rest);
    DecodesWord(Lens, lit, s, Then(extra, rest));
    OpBits(e);
    TakeFirst(WithSub(c, Sub.Len), Word(lit, s), Then(extra, rest));
    AtValid(c, lit, dist, Sub.Len, Then(LengthStream(lit, n), rest));
    LenNext(c0, w);
    InflateRun.StepIsGood(c0, w);
    TakeFirst(WithSub(c, c1.phase.sub), extra, rest);
    LenExtNext(c1, w);
  }

  /** In DIST and DISTEXT: the symbol and the extra bits of distance d. */
  lemma DistRead(c: Config, w: Window, lit: seq<nat>, dist: seq<nat>, n: nat, d: nat, rest: Stream)
    requires InCodes(c, lit, dist) && 3 <= n <= 258 && 1 <= d <= 32768 && IsSymbol(dist, DistSymbol(d))
      && IsStream(rest)
    ensures var c1 := At(c, DistExt(n, SymVal(Dists, DistSymbol(d)), DistBits(d)),
        Then(Stream(DistRest(d), DistBits(d)), rest));
      && Valid(At(c, Sub.Dist(n), Then(DistStream(dist, d), rest))) && Valid(c1)
      && Next(At(c, Sub.Dist(n), Then(DistStream(dist, d), rest)), w) == Some(c1)
      && Next(c1, w) == Some(At(c, Sub.Match(n, d), rest))
  {
    hide Pow2, Accepted, Next, SymOp, SymVal, Lo, Hi, Shl, Decode, Word, DistRest, DistBits, HasBit;
    DistDenoted(d);
    var s, e, extra := DistSymbol(d), DistBits(d), Stream(DistRest(d), DistBits(d));
    var c0 := At(c, Sub.Dist(n), Then(DistStream(dist, d), rest));
    var c1 := At(c, DistExt(n, SymVal(Dists, s), e), Then(extra, rest));
    WordIsStream(dist, s);
    ThenIsStream(extra, rest);
    ThenIsStream(Word(dist, s), Then(extra, rest));
    ThenThen(Word(dist, s), extra, rest);
    DecodesWord(Dists, dist, s, Then(extra, rest));
    OpBits(e);
    TakeFirst(WithSub(c, Sub.Dist(n)), Word(dist, s), Then(extra, rest));
    AtValid(c, lit, dist, Sub.Dist(n), Then(DistStream(dist, d), rest));
    DistNext(c0, w);
    InflateRun.StepIsGood(c0, w);
    TakeFirst(WithSub(c, c1.phase.sub), extra, rest);
    DistExtNext(c1, w);
  }

  lemma LengthIsStream(lit: seq<nat>, n: nat)
    requires 3 <= n <= 258 && LengthSymbol(n) < |lit|
    ensures IsStream(LengthStream(lit, n))
  {
    hide Pow2, Word, LengthRest, LengthBits;
    LengthDenoted(n);
    WordIsStream(lit, LengthSymbol(n));
    ThenIsStream(Word(lit, LengthSymbol(n)), Stream(LengthRest(n), LengthBits(n)));
  }

  lemma DistIsStream(dist: seq<nat>, d: nat)
    requires 1 <= d <= 32768 && DistSymbol(d) < |dist|
    ensures IsStream(DistStream(dist, d))
  {
    hide Pow2, Word, DistRest, DistBits;
    DistDenoted(d);
    WordIsStream(dist, DistSymbol(d));
    ThenIsStream(Word(dist, DistSymbol(d)), Stream(DistRest(d), DistBits(d)));
  }

  /**
    The bits of a length and a distance, by the arithmetic of section 3.2.5 of RFC 1951, lead in four steps from
    LEN to a match of exactly that length and distance.
   */
  lemma ReachesMatch(c: Config, w: Window, lit: seq<nat>, dist: seq<nat>, n: nat, d: nat, rest: Stream)
    requires InCodes(c, lit, dist) && Writable(lit, dist, Token.Copy(d, n)) && IsStream(rest)
    ensures var c0 := At(c, Sub.Len, Then(TokenStream(lit, dist, Token.Copy(d, n)), rest));
      Valid(c0) && Steps(c0, w, 4) == Some(At(c, Sub.Match(n, d), rest))
  {
    hide Pow2, Accepted, Next, SymOp, SymVal, Shl, LengthStream, DistStream, Valid, LengthSymbol, DistSymbol;
    var a, b := LengthStream(lit, n), DistStream(dist, d);
    ThenThen(a, b, rest);
    LengthIsStream(lit, n);
    DistIsStream(dist, d);
    ThenIsStream(b, rest);
    LengthRead(c, w, lit, dist, n, Then(b, rest));
    DistRead(c, w, lit, dist, n, d, rest);
    var c0 := At(c, Sub.Len, Then(a, Then(b, rest)));
    var c1 := Next(c0, w).value;
    var c2 := Next(c1, w).value;
    var c3 := Next(c2, w).value;
    assert Steps(c3, w, 1) ==
      Some(At(c, Sub.Match(n, d), rest)) by { StepsOne(c3, w); StepsNone(Next(c3, w).value, w); }
    StepsOne2(c2, c3, w, 1);
    StepsOne2(c1, c2, w, 2);
    StepsOne2(c0, c1, w, 3);
  }

  lemma StepsOne2(c: Config, c': Config, w: Window, k: nat)
    requires Valid(c) && Valid(c') && Next(c, w) == Some(c')
    ensures Steps(c, w, k + 1) == Steps(c', w, k)
  {
    hide Valid, Next;
  }

  lemma StepsNone(c: Config, w: Window)
    requires Valid(c)
    ensures Steps(c, w, 0) == Some(c)
  {
  }

  lemma StepsOne(c: Config, w: Window)
    requires Valid(c) && Next(c, w).Some?
    ensures Valid(Next(c, w).value) && Steps(c, w, 1) == Steps(Next(c, w).value, w, 0)
  {
    hide Valid, Next;
    InflateRun.StepIsGood(c, w);
  }

  // ----- tokens -----

  /** With nothing before the call, whatever has been written is in reach. */
  lemma InReach(c: Config, w: Window, d: nat)
    requires w.base == 0
    ensures TooFar(c, w, d) <==> d > |c.out|
  {
  }

  lemma {:induction false} WholeMatch(c: Config, w: Window, n: nat)
    requires Valid(c) && c.phase.Coded? && c.phase.sub.Match? && !TooFar(c, w, c.phase.sub.offset)
    requires n <= c.phase.sub.length
    ensures Leads(c, AfterMatch(c, n), w)
  {
    hide Pow2, Decode, Accepted, RunAll, Next, MatchOut;
    MatchOutStep(c.out, c.phase.sub.offset, n);
    if n > 0 {
      WholeMatch(c, w, n - 1);
      var c1 := AfterMatch(c, n - 1);
      MatchStep(c1, w);
      Step(c1, AfterMatch(c, n), w);
    }
  }

  lemma LiteralRead(c: Config, w: Window, lit: seq<nat>, dist: seq<nat>, b: Byte, rest: Stream)
    requires InCodes(c, lit, dist) && IsSymbol(lit, b) && IsStream(rest)
    ensures Leads(At(c, Sub.Len, Then(Word(lit, b), rest)), At(c.(out := c.out + [b]), Sub.Len, rest), w)
  {
    hide Pow2, Accepted, Next, SymOp, SymVal, Lo, Hi, Shl, Decode, Word, HasBit, RunAll;
    var c0, c1 := At(c, Sub.Len, Then(Word(lit, b), rest)), At(c, Sub.Lit(b), rest);
    WordIsStream(lit, b);
    ThenIsStream(Word(lit, b), rest);
    DecodesWord(Lens, lit, b, rest);
    OtherSymbols(b);
    TakeFirst(WithSub(c, Sub.Len), Word(lit, b), rest);
    AtValid(c, lit, dist, Sub.Len, Then(Word(lit, b), rest));
    LenNext(c0, w);
    Step(c0, c1, w);
    LitNext(c1, w);
    Step(c1, At(c.(out := c.out + [b]), Sub.Len, rest), w);
  }

  lemma CopyRead(c: Config, w: Window, lit: seq<nat>, dist: seq<nat>, n: nat, d: nat, rest: Stream)
    requires InCodes(c, lit, dist) && Writable(lit, dist, Token.Copy(d, n)) && IsStream(rest) && w.base == 0
      && d <= |c.out|
    ensures Leads(At(c, Sub.Len, Then(TokenStream(lit, dist, Token.Copy(d, n)), rest)),
      At(c.(out := MatchOut(c.out, d, n)), Sub.Len, rest), w)
  {
    hide Pow2, Accepted, Next, SymOp, SymVal, Shl, LengthStream, DistStream, Valid, LengthSymbol, DistSymbol, RunAll;
    var c0, c4 := At(c, Sub.Len, Then(TokenStream(lit, dist, Token.Copy(d, n)), rest)), At(c, Sub.Match(n, d), rest);
    ReachesMatch(c, w, lit, dist, n, d, rest);
    StepsLead(c0, c4, w, 4);
    InReach(c4, w, d);
    WholeMatch(c4, w, n);
  }

  lemma {:induction false} StepsLead(c: Config, c': Config, w: Window, k: nat)
    requires Valid(c) && Steps(c, w, k) == Some(c')
    ensures Leads(c, c', w)
    decreases k
  {
    hide Valid, Next, RunAll;
    if k > 0 {
      var c1 := Next(c, w).value;
      Step(c, c1, w);
      StepsLead(c1, c', w, k - 1);
    }
  }

  lemma TokenIsStream(lit: seq<nat>, dist: seq<nat>, t: Token)
    requires Writable(lit, dist, t)
    ensures IsStream(TokenStream(lit, dist, t))
  {
    hide Pow2, LengthStream, DistStream, Word;
    match t
    case Literal(b) => WordIsStream(lit, b);
    case Copy(d, n) =>
      LengthIsStream(lit, n);
      DistIsStream(dist, d);
      ThenIsStream(LengthStream(lit, n), DistStream(dist, d));
  }

  lemma TokenRead(c: Config, w: Window, lit: seq<nat>, dist: seq<nat>, t: Token, rest: Stream)
    requires InCodes(c, lit, dist) && Writable(lit, dist, t) && IsStream(rest) && w.base == 0
      && Apply(Some(c.out), t).Some?
    ensures Leads(At(c, Sub.Len, Then(TokenStream(lit, dist, t), rest)),
      At(c.(out := Apply(Some(c.out), t).value), Sub.Len, rest), w)
  {
    hide Leads, Accepted, Shl, LengthStream, DistStream, Word;
    match t
    case Literal(b) => LiteralRead(c, w, lit, dist, b, rest);
    case Copy(d, n) => CopyRead(c, w, lit, dist, n, d, rest);
  }

  lemma {:induction false} TokensAreStream(lit: seq<nat>, dist: seq<nat>, ts: seq<Token>)
    requires AllWritable(lit, dist, ts) && |lit| > 256
    ensures IsStream(TokensStream(lit, dist, ts))
  {
    hide TokenStream, Word, IsStream, Then, Writable;
    if ts == [] {
      WordIsStream(lit, 256);
    } else {
      TokensAreStream(lit, dist, ts[1..]);
      TokenIsStream(lit, dist, ts[0]);
      ThenIsStream(TokenStream(lit, dist, ts[0]), TokensStream(lit, dist, ts[1..]));
    }
  }

  /** The end of the block. */
  lemma EndRead(c: Config, w: Window, lit: seq<nat>, dist: seq<nat>, rest: Stream)
    requires InCodes(c, lit, dist) && IsSymbol(lit, 256) && IsStream(rest)
    ensures Leads(At(c, Sub.Len, Then(Word(lit, 256), rest)), On(c, rest).(phase := Phase.Block), w)
  {
    hide Pow2, Accepted, Next, SymVal, SymOp, Lo, Hi, Shl, Decode, Word, RunAll;
    var c0 := At(c, Sub.Len, Then(Word(lit, 256), rest));
    WordIsStream(lit, 256);
    ThenIsStream(Word(lit, 256), rest);
    DecodesWord(Lens, lit, 256, rest);
    OtherSymbols(256);
    TakeFirst(WithSub(c, Sub.Len), Word(lit, 256), rest);
    AtValid(c, lit, dist, Sub.Len, Then(Word(lit, 256), rest));
    LenNext(c0, w);
    Step(c0, On(c, rest).(phase := Phase.Block), w);
  }

  /** All tokens of a block, and its end. */
  lemma {:induction false} TokensRead(c: Config, w: Window, lit: seq<nat>, dist: seq<nat>, ts: seq<Token>, rest: Stream)
    requires InCodes(c, lit, dist) && AllWritable(lit, dist, ts) && IsSymbol(lit, 256) && IsStream(rest) && w.base == 0
    requires Written(Some(c.out), ts).Some?
    ensures Leads(At(c, Sub.Len, Then(TokensStream(lit, dist, ts), rest)),
      On(c, rest).(phase := Phase.Block, out := Written(Some(c.out), ts).value), w)
    decreases |ts|
  {
    hide TokenStream, Word, IsStream, Then, Writable, Apply, Valid, RunAll, Accepted;
    if ts == [] {
      EndRead(c, w, lit, dist, rest);
    } else {
      var t, more := ts[0], TokensStream(lit, dist, ts[1..]);
      if Apply(Some(c.out), t).None? { NeverBack(ts[1..]); }
      TokensAreStream(lit, dist, ts[1..]);
      ThenIsStream(more, rest);
      ThenThen(TokenStream(lit, dist, t), more, rest);
      TokenRead(c, w, lit, dist, t, Then(more, rest));
      TokensRead(c.(out := Apply(Some(c.out), t).value), w, lit, dist, ts[1..], rest);
    }
  }
}
