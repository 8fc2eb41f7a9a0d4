/** The bit output of trees.c: a 16-bit buffer in front of the pending bytes, and what is written through it. */
module BitOutput {
  import opened Bits
  import opened Bytes
  import opened Canonical
  import opened DecodeTable
  import opened InflateSpec
  import opened InflateSchedule
  import opened DeflateTokens
  import opened DeflateFormat
  import opened DeflateEncode
  import opened DeflateState
  import opened TreesTables
  import opened TreesRuns
  import opened InflateFormat
  import opened InflateBlocks
  import InflateRun
  import InflateTable

  // ----- streams of bytes -----

  lemma BytewiseMore(s: seq<Byte>, t: seq<Byte>)
    ensures Bytewise(s + t) == Then(Bytewise(s), Bytewise(t))
  {
    hide Val, Shl;
    ValAppend(s, t);
  }

  lemma BytewiseOne(b: Byte)
    ensures Bytewise([b]) == Stream(b, 8)
  {
    assert [b][1..] == [];
    assert Val([b]) == b + 256 * Val([]);
  }

  lemma BytewiseTwo(a: Byte, b: Byte)
    ensures Bytewise([a, b]) == Stream(a + 256 * b, 16)
  {
    assert [a, b][1..] == [b] && [b][1..] == [];
    assert Val([b]) == b + 256 * Val([]);
    assert Val([a, b]) == a + 256 * Val([b]);
  }

  /** A 16-bit field as its two bytes. */
  lemma TwoBytes(x: nat)
    requires x < 65536
    ensures Bytewise([x % 256, x / 256]) == Stream(x, 16)
  {
    BytewiseTwo(x % 256, x / 256);
  }

  // ----- the bit buffer -----

  /** The buffer after length more bits: 16 of them go out if it overflows, and the rest stays. */
  lemma Overflow(buf: nat, valid: nat, value: nat, length: nat)
    requires buf < Pow2(valid) && valid <= 16 && value < Pow2(length) && length <= 16 && valid + length > 16
    ensures buf + Lo(Shl(value, valid), 16) < 65536 && Hi(value, 16 - valid) < Pow2(valid + length - 16)
    ensures Then(Stream(buf + Lo(Shl(value, valid), 16), 16), Stream(Hi(value, 16 - valid), valid + length - 16)) ==
      Then(Stream(buf, valid), Stream(value, length))
  {
    hide Pow2, Shl, Hi, Lo;
    var x := Shl(value, valid);
    Join(value, buf, valid);
    Join(value, 0, valid);
    Pow2Least(valid);
    HiHi(x + buf, valid, 16 - valid);
    HiHi(x, valid, 16 - valid);
    Split(x + buf, 16);
    Split(x, 16);
    InflateRun.Pow2Values();
    LoBelow(x + buf, 16);
    HiBound(value, 16 - valid, valid + length - 16);
  }

  lemma Pow2Least(n: nat)
    ensures Pow2(n) > 0
  {
  }

  lemma LoBelow(x: nat, n: nat)
    ensures Lo(x, n) < Pow2(n)
  {
  }

  class Pending {
    /** pending_buf, up to pending */
    var bytes: seq<Byte>
    var biBuf: nat
    var biValid: nat

    predicate Valid()
      reads this
    {
      biValid <= 16 && biBuf < Pow2(biValid)
    }

    /** Everything written. */
    function Abs(): Stream
      reads this
    {
      Then(Bytewise(bytes), Stream(biBuf, biValid))
    }

    constructor ()
      ensures Valid() && Abs() == NOTHING && bytes == [] && biValid == 0
    {
      hide Pow2, Shl, Bytewise, Then;
      bytes, biBuf, biValid := [], 0, 0;
      new;
      EmptyOutput();
    }

    /** put_byte() */
    method PutByte(b: Byte)
      modifies this`bytes
      ensures bytes == old(bytes) + [b]
    {
      bytes := bytes + [b];
    }

    /** put_short() */
    method PutShort(w: nat)
      requires w < 65536
      modifies this`bytes
      ensures bytes == old(bytes) + [w % 256, w / 256]
    {
      PutByte(w % 256);
      PutByte(w / 256);
      assert bytes == old(bytes) + [w % 256] + [w / 256];
    }

    /** send_bits() */
    method SendBits(value: nat, length: nat)
      requires Valid() && length <= 16 && value < Pow2(length)
      modifies this
      ensures Valid() && Abs() == Then(old(Abs()), Stream(value, length))
    {
      hide Pow2, Shl, Hi, Lo, Bytewise, Then;
      ghost var bytes0, buf0, valid0 := bytes, biBuf, biValid;
      ThenThen(Bytewise(bytes0), Stream(buf0, valid0), Stream(value, length));
      if biValid > 16 - length {
        Overflow(buf0, valid0, value, length);
        biBuf := biBuf + Lo(Shl(value, biValid), 16);
        ghost var w := biBuf;
        PutShort(biBuf);
        biBuf := Hi(value, 16 - biValid);
        biValid := biValid + length - 16;
        TwoBytes(w);
        BytewiseMore(bytes0, [w % 256, w / 256]);
        ThenThen(Bytewise(bytes0), Stream(w, 16), Stream(biBuf, biValid));
      } else {
        Fits(buf0, valid0, value, length);
        biBuf := biBuf + Shl(value, biValid);
        biValid := biValid + length;
      }
    }

    /** bi_windup(): zero bits up to the byte boundary. */
    method Windup()
      requires Valid()
      modifies this
      ensures Valid() && biValid == 0 && Abs() == Bytewise(bytes)
      ensures Abs() == Then(old(Abs()), Stream(0, Gap(old(Abs()).n)))
    {
      hide Pow2, Shl, Bytewise, Then;
      ghost var bytes0, buf0, valid0 := bytes, biBuf, biValid;
      LengthOf(bytes0, buf0, valid0);
      ThenThen(Bytewise(bytes0), Stream(buf0, valid0), Stream(0, Gap(8 * |bytes0| + valid0)));
      GapOf(|bytes0|, valid0);
      Bound(buf0, valid0);
      if biValid > 8 {
        Padded(buf0, valid0, 16);
        PutShort(biBuf);
        TwoBytes(buf0);
        BytewiseMore(bytes0, [buf0 % 256, buf0 / 256]);
      } else if biValid > 0 {
        Padded(buf0, valid0, 8);
        PutByte(biBuf);
        BytewiseOne(buf0);
        BytewiseMore(bytes0, [buf0]);
      } else {
        Nothing(buf0);
        ThenNothing(Bytewise(bytes0));
        ThenNothing(NOTHING);
      }
      biBuf, biValid := 0, 0;
      ThenNothing(Bytewise(bytes));
      PowerZero();
    }

    /** The type of a block, and whether it is the last. */
    method SendType(kind: nat, last: bool)
      requires Valid() && kind <= 2
      modifies this
      ensures Valid() && Abs() == Then(old(Abs()), Then(Stream(if last then 1 else 0, 1), Stream(kind, 2)))
    {
      hide Pow2, Then;
      TypeBits(kind, last);
      SmallField(2 * kind + (if last then 1 else 0), 3);
      SendBits(2 * kind + (if last then 1 else 0), 3);
    }

    /** copy_block() with its header */
    method CopyBlock(buf: seq<Byte>)
      requires Valid() && |buf| <= 65535
      modifies this
      ensures Valid() && biValid == 0
      ensures Abs() == Then(old(Abs()), Then(Stream(0, Gap(old(Abs()).n)),
        Then(Stream(|buf|, 16), Then(Stream(65535 - |buf|, 16), Bytewise(buf)))))
    {
      hide Pow2, Shl, Bytewise, Then, Gap;
      ghost var s := Abs();
      Windup();
      ghost var bytes0 := bytes;
      PutShort(|buf|);
      PutShort(65535 - |buf|);
      TwoBytes(|buf|);
      TwoBytes(65535 - |buf|);
      ghost var x, y := [|buf| % 256, |buf| / 256], [(65535 - |buf|) % 256, (65535 - |buf|) / 256];
      for i := 0 to |buf|
        invariant bytes == bytes0 + x + y + buf[..i]
        invariant biBuf < Pow2(biValid) && biValid == 0
      {
        PutByte(buf[i]);
        assert buf[..i + 1] == buf[..i] + [buf[i]];
      }
      assert buf[..|buf|] == buf;
      assert bytes == bytes0 + (x + (y + buf));
      BytewiseMore(bytes0, x + (y + buf));
      BytewiseMore(x, y + buf);
      BytewiseMore(y, buf);
      Aligned(bytes, biBuf);
      ThenThen(s, Stream(0, Gap(s.n)), Then(Bytewise(x), Then(Bytewise(y), Bytewise(buf))));
    }

    /** _tr_stored_block() */
    method StoredBlock(buf: seq<Byte>, last: bool)
      requires Valid() && |buf| <= 65535
      modifies this
      ensures Valid() && IsChunk(Plain(0, buf), old(Abs()).n)
      ensures Abs() == Then(old(Abs()), ChunkStream(Plain(0, buf), last, old(Abs()).n))
    {
      hide Pow2, Shl, Bytewise, Then, Gap;
      ghost var s := Abs();
      SendType(0, last);
      ghost var x, y := Stream(if last then 1 else 0, 1), Stream(0, 2);
      TypeLength(s, x, y);
      CopyBlock(buf);
      ghost var body := Then(Stream(0, Gap(s.n + 3)),
        Then(Stream(|buf|, 16), Then(Stream(65535 - |buf|, 16), Bytewise(buf))));
      ThenThen(s, Then(x, y), body);
      ThenThen(x, y, body);
      Pow2Least(Gap(s.n + 3));
    }

    /** send_code() */
    method SendCode(sym: nat, lens: seq<nat>, codes: seq<nat>)
      requires Valid() && HasCodes(lens, codes) && IsSymbol(lens, sym)
      modifies this
      ensures Valid() && Abs() == Then(old(Abs()), Word(lens, sym))
    {
      hide Pow2, Then, Rev, CodeOf;
      RevBound(CodeOf(lens, sym), lens[sym]);
      SendBits(codes[sym], lens[sym]);
    }

    /** A match length less three. */
    method SendLength(lc: Byte, t: Tables, lit: seq<nat>, codes: seq<nat>)
      requires Valid() && Right(t) && HasCodes(lit, codes) && IsSymbol(lit, LengthSymbol(lc + 3))
      modifies this
      ensures Valid() && Abs() == Then(old(Abs()), LengthStream(lit, lc + 3))
    {
      hide Pow2, Then, Word, HasCodes, LengthSymbol, LengthRest, LengthBits, Right;
      ghost var s, len: nat := Abs(), lc + 3;
      RightSizes(t);
      LengthOfCode(t, len);
      var code := t.lengthCode[lc];
      SendCode(code + 256 + 1, lit, codes);
      var extra := EXTRA_LBITS[code];
      if extra != 0 {
        SendBits(lc - t.baseLength[code], extra);
      } else {
        ThenNothing(Abs());
      }
      ThenThen(s, Word(lit, LengthSymbol(len)), Stream(LengthRest(len), LengthBits(len)));
    }

    /** A match distance. */
    method SendDistance(dist: nat, t: Tables, dst: seq<nat>, codes: seq<nat>)
      requires Valid() && Right(t) && HasCodes(dst, codes) && 1 <= dist <= 32768 && IsSymbol(dst, DistSymbol(dist))
      modifies this
      ensures Valid() && Abs() == Then(old(Abs()), DistStream(dst, dist))
    {
      hide Pow2, Then, Word, HasCodes, DistSymbol, DistRest, DistBits, Right, DCode;
      ghost var s := Abs();
      RightSizes(t);
      DistOfCode(t, dist);
      var d := dist - 1;
      var code := DCode(t, d);
      SendCode(code, dst, codes);
      var extra := EXTRA_DBITS[code];
      if extra != 0 {
        SendBits(d - t.baseDist[code], extra);
      } else {
        ThenNothing(Abs());
      }
      ThenThen(s, Word(dst, DistSymbol(dist)), Stream(DistRest(dist), DistBits(dist)));
    }

    /** One round of compress_block(): an entry of d_buf and l_buf. */
    method SendToken(dist: nat, lc: Byte, t: Tables, lit: seq<nat>, litCodes: seq<nat>, dst: seq<nat>,
        dstCodes: seq<nat>)
      requires Valid() && Right(t) && HasCodes(lit, litCodes) && HasCodes(dst, dstCodes)
      requires Writable(lit, dst, TokenAt(dist, lc))
      modifies this
      ensures Valid() && Abs() == Then(old(Abs()), TokenStream(lit, dst, TokenAt(dist, lc)))
    {
      hide Pow2, Then, Word, HasCodes, LengthSymbol, DistSymbol, LengthStream, DistStream, Right;
      if dist == 0 {
        SendCode(lc, lit, litCodes);
      } else {
        ghost var s := Abs();
        SendLength(lc, t, lit, litCodes);
        SendDistance(dist, t, dst, dstCodes);
        ThenThen(s, LengthStream(lit, lc + 3), DistStream(dst, dist));
      }
    }

    /** compress_block() */
    method CompressBlock(d: seq<nat>, l: seq<Byte>, t: Tables, lit: seq<nat>, litCodes: seq<nat>, dst: seq<nat>,
        dstCodes: seq<nat>)
      requires Valid() && Right(t) && HasCodes(lit, litCodes) && HasCodes(dst, dstCodes)
      requires |d| == |l| && AllWritable(lit, dst, Tokens(d, l)) && IsSymbol(lit, 256)
      modifies this
      ensures Valid() && Abs() == Then(old(Abs()), TokensStream(lit, dst, Tokens(d, l)))
    {
      hide Pow2, Then, Word, HasCodes, Right, TokenStream, TokenAt, Writable;
      ghost var s, ts := Abs(), Tokens(d, l);
      ThenNothing(s);
      for lx := 0 to |d|
        invariant Valid() && Then(Abs(), TokensStream(lit, dst, ts[lx..])) == Then(s, TokensStream(lit, dst, ts))
      {
        ghost var s0 := Abs();
        assert ts[lx] == TokenAt(d[lx], l[lx]) && ts[lx..][0] == ts[lx] && ts[lx..][1..] == ts[lx + 1..];
        SendToken(d[lx], l[lx], t, lit, litCodes, dst, dstCodes);
        ThenThen(s0, TokenStream(lit, dst, ts[lx]), TokensStream(lit, dst, ts[lx + 1..]));
      }
      SendCode(256, lit, litCodes);
    }

    /** One run: its symbol, and its extra bits. */
    method SendRun(r: Run, code: seq<nat>, codes: seq<nat>)
      requires Valid() && HasCodes(code, codes) && IsRun(r) && IsSymbol(code, RunSymbol(r))
      modifies this
      ensures Valid() && Abs() == Then(old(Abs()), RunStream(code, r))
    {
      hide Pow2, Then, Word, HasCodes;
      ghost var s := Abs();
      RunIsStream(code, r);
      SendCode(RunSymbol(r), code, codes);
      match r {
        case One(_) => ThenNothing(Abs());
        case Again(k) => SendBits(k - 3, 2);
        case FewZeros(k) => SendBits(k - 3, 3);
        case ManyZeros(k) => SendBits(k - 11, 7);
      }
      ThenThen(s, Word(code, RunSymbol(r)), RunExtra(r));
    }

    /** What send_tree() sends when a run ends. */
    method SendFlushed(prevlen: int, curlen: nat, count: nat, minCount: nat, code: seq<nat>, codes: seq<nat>,
        ghost ls: seq<nat>)
      requires Valid() && HasCodes(code, codes) && After(ls, prevlen)
      requires 1 <= count <= MaxCount(prevlen, curlen) && minCount == MinCount(prevlen, curlen) && curlen <= 15
      requires HasWords(code, Flushed(prevlen, curlen, count))
      modifies this
      ensures Valid() && Runs(code, ls, Flushed(prevlen, curlen, count))
      ensures Abs() == Then(old(Abs()), RunsStream(code, ls, Flushed(prevlen, curlen, count)))
    {
      hide Pow2, Then, Word, HasCodes, RunStream;
      ghost var s, fl := Abs(), Flushed(prevlen, curlen, count);
      FlushedAreRuns(code, ls, prevlen, curlen, count);
      assert IsSymbol(code, RunSymbol(fl[0]));
      if count < minCount {
        SendOnes(curlen, count, code, codes, ls);
      } else if curlen != 0 {
        var left, ls1 := count, ls;
        if curlen != prevlen {
          assert IsSymbol(code, RunSymbol(fl[1]));
          SendRun(One(curlen), code, codes);
          left := left - 1;
          OneIsRuns(code, ls, One(curlen));
          OneIsRuns(code, ls + [curlen], Again(left));
          RunsAppend(code, ls, [One(curlen)], [Again(left)]);
          OneRun(ls, One(curlen));
          ThenThen(s, RunStream(code, One(curlen)), RunStream(code, Again(left)));
          assert fl == [One(curlen)] + [Again(left)];
        } else {
          OneIsRuns(code, ls, Again(left));
        }
        SendRun(Again(left), code, codes);
      } else if count <= 10 {
        OneIsRuns(code, ls, FewZeros(count));
        SendRun(FewZeros(count), code, codes);
      } else {
        OneIsRuns(code, ls, ManyZeros(count));
        SendRun(ManyZeros(count), code, codes);
      }
    }

    /** The same length, count times. */
    method SendOnes(len: nat, count: nat, code: seq<nat>, codes: seq<nat>, ghost ls: seq<nat>)
      requires Valid() && HasCodes(code, codes) && len <= 15 && IsSymbol(code, len) && count > 0
      modifies this
      ensures Valid() && Runs(code, ls, Repeat(One(len), count))
      ensures Abs() == Then(old(Abs()), RunsStream(code, ls, Repeat(One(len), count)))
    {
      hide Pow2, Then, Word, HasCodes, RunStream;
      ghost var s := Abs();
      var left := count;
      OnesNone(code, ls, len);
      ThenNothing(s);
      while left != 0
        invariant 0 <= left <= count && Valid() && Runs(code, ls, Repeat(One(len), count - left))
        invariant Abs() == Then(s, RunsStream(code, ls, Repeat(One(len), count - left)))
      {
        ghost var done := Repeat(One(len), count - left);
        SendRun(One(len), code, codes);
        OneIsRuns(code, ExtendAll(ls, done), One(len));
        RunsAppend(code, ls, done, [One(len)]);
        ThenThen(s, RunsStream(code, ls, done), RunStream(code, One(len)));
        assert done + [One(len)] == Repeat(One(len), count - left + 1);
        left := left - 1;
      }
    }

    /** send_tree(): the code lengths of a tree, in runs. */
    method SendTree(lens: seq<nat>, code: seq<nat>, codes: seq<nat>, ghost ls: seq<nat>)
      requires Valid() && HasCodes(code, codes) && lens != [] && HasWords(code, TreeRuns(lens))
      requires forall i {:trigger lens[i]} :: 0 <= i < |lens| ==> lens[i] <= 15
      modifies this
      ensures Valid() && Runs(code, ls, TreeRuns(lens))
      ensures Abs() == Then(old(Abs()), RunsStream(code, ls, TreeRuns(lens)))
    {
      hide Pow2, Then, HasCodes, RunStream, Flushed, Extend, Runs, RunsStream, ExtendAll;
      ghost var s, done: seq<Run> := Abs(), [];
      NoRuns(code, ls);
      ThenNothing(s);
      NoneExtends(ls);
      var prevlen: int := -1;
      var count: nat, maxCount, minCount := 0, 7, 4;
      var nextlen := lens[0];
      if nextlen == 0 { maxCount, minCount := 138, 3; }
      for n := 0 to |lens|
        invariant Valid() && TreeRuns(lens) == done + RunsFrom(lens, n, prevlen, count)
        invariant Runs(code, ls, done) && Abs() == Then(s, RunsStream(code, ls, done))
        invariant Waiting(lens, n, prevlen, count) && After(ExtendAll(ls, done), prevlen)
        invariant n < |lens| ==> nextlen == lens[n]
        invariant n < |lens| ==> maxCount == MaxCount(prevlen, nextlen) && minCount == MinCount(prevlen, nextlen)
      {
        var curlen := nextlen;
        nextlen := if n + 1 < |lens| then lens[n + 1] else 0xffff;
        count := count + 1;
        if count < maxCount && curlen == nextlen { continue; }
        ghost var ls1, fl := ExtendAll(ls, done), Flushed(prevlen, curlen, count);
        ghost var rest := RunsFrom(lens, n + 1, curlen, 0);
        assert TreeRuns(lens) == done + (fl + rest);
        WordsSplit(code, done, fl + rest);
        WordsSplit(code, fl, rest);
        SendFlushed(prevlen, curlen, count, minCount, code, codes, ls1);
        RunsAppend(code, ls, done, fl);
        ThenThen(s, RunsStream(code, ls, done), RunsStream(code, ls1, fl));
        FlushedGives(ls1, prevlen, curlen, count);
        ExtendAllAppend(ls, done, fl);
        assert done + (fl + rest) == done + fl + rest;
        done := done + fl;
        count, prevlen := 0, curlen;
        if nextlen == 0 {
          maxCount, minCount := 138, 3;
        } else if curlen == nextlen {
          maxCount, minCount := 6, 3;
        } else {
          maxCount, minCount := 7, 4;
        }
      }
      assert done + [] == done;
    }

    /** The lengths of the code length code, as send_all_trees() writes them. */
    method SendOrder(code: seq<nat>, ncode: nat)
      requires Valid() && |code| == 19 && ncode <= 19 && forall s {:trigger code[s]} :: 0 <= s < 19 ==> code[s] <= 7
      modifies this
      ensures Valid() && Abs() == Then(old(Abs()), OrderStream(code, 0, ncode))
    {
      hide Pow2, Then, OrderAt;
      ghost var s := Abs();
      ThenNothing(s);
      for rank := 0 to ncode
        invariant Valid() && Then(Abs(), OrderStream(code, rank, ncode)) == Then(s, OrderStream(code, 0, ncode))
      {
        BlOrder(rank);
        ghost var s0 := Abs();
        SmallField(code[BL_ORDER[rank]], 3);
        SendBits(code[BL_ORDER[rank]], 3);
        ThenThen(s0, Stream(code[OrderAt(rank)], 3), OrderStream(code, rank + 1, ncode));
      }
      ThenNothing(Abs());
    }

    /** send_all_trees() */
    method SendAllTrees(lit: seq<nat>, dst: seq<nat>, ncode: nat, code: seq<nat>, codes: seq<nat>)
      requires Valid() && HasCodes(code, codes) && ForHeader(lit, dst, ncode, code)
      modifies this
      ensures Valid() && IsHeader(HeaderOf(lit, dst, ncode, code))
      ensures Abs() == Then(old(Abs()), HeaderStream(HeaderOf(lit, dst, ncode, code)))
    {
      hide Pow2, Then, HasCodes, OrderStream, TreeRuns, HasWords, RunsStream, Runs, ExtendAll, OrderAt;
      ghost var s, h := Abs(), HeaderOf(lit, dst, ncode, code);
      HeaderOfTrees(lit, dst, ncode, code);
      ghost var x, y, z := Stream(h.nlen - 257, 5), Stream(h.ndist - 1, 5), Stream(h.ncode - 4, 4);
      SmallField(x.v, 5);
      SmallField(y.v, 5);
      SmallField(z.v, 4);
      SendBits(|lit| - 257, 5);
      SendBits(|dst| - 1, 5);
      SendBits(ncode - 4, 4);
      SendOrder(code, ncode);
      SendTree(lit, code, codes, []);
      SendTree(dst, code, codes, lit);
      ghost var o, a, b := OrderStream(code, 0, ncode), RunsStream(code, [], TreeRuns(lit)),
        RunsStream(code, lit, TreeRuns(dst));
      InSequence(s, x, y, z, o, a, b);
    }

    /** A block with the static trees. */
    method StaticBlock(d: seq<nat>, l: seq<Byte>, t: Tables, st: StaticCodes, last: bool)
      requires Valid() && Right(t) && GoodStatic(st) && |d| == |l| && AllWritable(FIXED_LIT, FIXED_DIST, Tokens(d, l))
      modifies this
      ensures Valid() && IsChunk(Fixed(Tokens(d, l)), old(Abs()).n)
      ensures Abs() == Then(old(Abs()), ChunkStream(Fixed(Tokens(d, l)), last, old(Abs()).n))
    {
      hide Pow2, Then, HasCodes, TokensStream, Right, Writable, FIXED_LIT, FIXED_DIST, STATIC_DIST, Tokens;
      ghost var s, ts := Abs(), Tokens(d, l);
      StaticTokens(ts);
      FixedEnd();
      SendType(1, last);
      CompressBlock(d, l, t, FIXED_LIT, st.lit, STATIC_DIST, st.dst);
      ghost var x, y, body := Stream(if last then 1 else 0, 1), Stream(1, 2), TokensStream(FIXED_LIT, FIXED_DIST, ts);
      ThenThen(s, Then(x, y), body);
      ThenThen(x, y, body);
    }

    /** A block with the trees built for it. */
    method DynamicBlock(d: seq<nat>, l: seq<Byte>, t: Tables, tr: Trees, last: bool)
      requires Valid() && Right(t) && GoodTrees(tr) && |d| == |l| && AllWritable(tr.lit, tr.dst, Tokens(d, l))
      modifies this
      ensures Valid() && IsChunk(Dynamic(HeaderIn(tr), Tokens(d, l)), old(Abs()).n)
      ensures Abs() == Then(old(Abs()), ChunkStream(Dynamic(HeaderIn(tr), Tokens(d, l)), last, old(Abs()).n))
    {
      hide Pow2, Then, HasCodes, TokensStream, HeaderStream, Right, Writable, Tokens, ForHeader, InflateTable.Result,
        IsHeader, LengthsOf;
      ghost var s, ts, h := Abs(), Tokens(d, l), HeaderIn(tr);
      HeaderLens(tr);
      SendType(2, last);
      SendAllTrees(tr.lit, tr.dst, tr.ncode, tr.code, tr.codes);
      CompressBlock(d, l, t, tr.lit, tr.litCodes, tr.dst, tr.dstCodes);
      ghost var x, y := Stream(if last then 1 else 0, 1), Stream(2, 2);
      ghost var a, b := HeaderStream(h), TokensStream(tr.lit, tr.dst, ts);
      ThenThen(Then(s, Then(x, y)), a, b);
      ThenThen(s, Then(x, y), Then(a, b));
      ThenThen(x, y, Then(a, b));
    }

    /**
      _tr_flush_block(), after the trees have been built: the block is stored if its bytes are there and that is
      shorter, else written with the static trees if those are as good, else with the trees built; the last
      block is filled up to a byte boundary.
     */
    method FlushBlock(buf: Option<seq<Byte>>, storedLen: nat, p: Choice, d: seq<nat>, l: seq<Byte>, t: Tables,
        st: StaticCodes, last: bool)
      returns (c: Chunk)
      requires Valid() && Right(t) && GoodStatic(st) && |d| == |l| && AllWritable(FIXED_LIT, FIXED_DIST, Tokens(d, l))
      requires p.fixedOnly || (GoodTrees(p.tr) && AllWritable(p.tr.lit, p.tr.dst, Tokens(d, l)))
      requires buf.Some? ==> |buf.value| == storedLen <= 65535
      modifies this
      ensures c == (if buf.Some? && storedLen + 4 <= p.optLenb then Plain(0, buf.value)
                    else if p.fixedOnly || p.staticLenb == p.optLenb then Fixed(Tokens(d, l))
                    else Dynamic(HeaderIn(p.tr), Tokens(d, l)))
      ensures Valid() && IsChunk(c, old(Abs()).n)
      ensures var s := Then(old(Abs()), ChunkStream(c, last, old(Abs()).n));
        if last then Abs() == Then(s, Stream(0, Gap(s.n))) == Bytewise(bytes) else Abs() == s
    {
      hide Pow2, Then, Gap, Right, GoodTrees, GoodStatic, AllWritable, FIXED_LIT, FIXED_DIST, Bytewise, IsChunk, Tokens,
        ChunkStream;
      if buf.Some? && storedLen + 4 <= p.optLenb {
        c := Plain(0, buf.value);
        StoredBlock(buf.value, last);
      } else if p.fixedOnly || p.staticLenb == p.optLenb {
        c := Fixed(Tokens(d, l));
        StaticBlock(d, l, t, st, last);
      } else {
        c := Dynamic(HeaderIn(p.tr), Tokens(d, l));
        DynamicBlock(d, l, t, p.tr, last);
      }
      if last { Windup(); }
    }
  }

  lemma EmptyOutput()
    ensures Then(Bytewise([]), Stream(0, 0)) == NOTHING && Pow2(0) == 1
  {
    ThenNothing(NOTHING);
  }

  lemma PowerZero()
    ensures Pow2(0) == 1
  {
  }

  lemma Nothing(buf: nat)
    requires buf < Pow2(0)
    ensures Stream(buf, 0) == NOTHING
  {
  }

  lemma Fits(buf: nat, valid: nat, value: nat, length: nat)
    requires buf < Pow2(valid) && value < Pow2(length)
    ensures buf + Shl(value, valid) < Pow2(valid + length)
    ensures Then(Stream(buf, valid), Stream(value, length)) == Stream(buf + Shl(value, valid), valid + length)
  {
    hide Pow2, Shl;
    ShlBound(value, length, valid);
  }

  lemma LengthOf(bytes: seq<Byte>, buf: nat, valid: nat)
    ensures Then(Bytewise(bytes), Stream(buf, valid)).n == 8 * |bytes| + valid
  {
    hide Val;
  }

  lemma GapOf(k: nat, valid: nat)
    requires valid <= 16
    ensures Gap(8 * k + valid) == if valid > 8 then 16 - valid else if valid > 0 then 8 - valid else 0
  {
  }

  lemma Bound(buf: nat, valid: nat)
    requires buf < Pow2(valid) && valid <= 16
    ensures buf < 65536 && (valid <= 8 ==> buf < 256)
  {
    hide Pow2;
    InflateRun.Pow2Values();
    Pow2Mono(valid, 16);
    if valid <= 8 { Pow2Mono(valid, 8); }
  }

  /** Zero bits above change nothing. */
  lemma Padded(buf: nat, valid: nat, n: nat)
    requires valid <= n
    ensures Then(Stream(buf, valid), Stream(0, n - valid)) == Stream(buf, n)
  {
    ShlOne(valid);
  }

  /** Three bits hold both the type and the mark of the last block. */
  lemma TypeBits(kind: nat, last: bool)
    ensures Stream(2 * kind + (if last then 1 else 0), 3) == Then(Stream(if last then 1 else 0, 1), Stream(kind, 2))
  {
    assert Shl(kind, 1) == 2 * Shl(kind, 0);
  }

  lemma TypeLength(s: Stream, x: Stream, y: Stream)
    requires x.n == 1 && y.n == 2
    ensures Then(s, Then(x, y)).n == s.n + 3
  {
  }

  lemma Aligned(bytes: seq<Byte>, buf: nat)
    requires buf < Pow2(0)
    ensures Then(Bytewise(bytes), Stream(buf, 0)) == Bytewise(bytes)
  {
    hide Bytewise;
    Nothing(buf);
    ThenNothing(Bytewise(bytes));
  }

  lemma RevBound(x: nat, n: nat)
    ensures Rev(x, n) < Pow2(n)
  {
  }

  /** The tables give the symbol and the extra bits of a length. */
  lemma LengthOfCode(t: Tables, len: nat)
    requires Right(t) && 3 <= len <= 258
    ensures var c := LengthSymbol(len) - 257;
      && 0 <= c < 29 && t.lengthCode[len - 3] == c && EXTRA_LBITS[c] == LengthBits(len) <= 5
      && (LengthBits(len) > 0 ==> len - 3 - t.baseLength[c] == LengthRest(len))
      && (LengthBits(len) == 0 ==> Stream(LengthRest(len), LengthBits(len)) == NOTHING)
      && LengthRest(len) < Pow2(LengthBits(len))
  {
    hide LengthSymbol, LengthRest, LengthBits, SymVal, SymOp, DCode, DistSymbol, Pow2;
    LengthDenoted(len);
    ExtraBitsAre(LengthSymbol(len) - 257);
    PowerZero();
    NoExtra(len);
  }

  /** Only symbol 285 is not in the table of bases, and it has no extra bits. */
  lemma NoExtra(len: nat)
    requires 3 <= len <= 258
    ensures LengthBits(len) > 0 ==> LengthSymbol(len) < 285
  {
    hide LengthRest, SymVal, SymOp, Pow2;
    LengthDenoted(len);
  }

  lemma DistOfCode(t: Tables, d: nat)
    requires Right(t) && 1 <= d <= 32768
    ensures var c := DistSymbol(d);
      && c < 30 && DCode(t, d - 1) == c && EXTRA_DBITS[c] == DistBits(d) <= 13
      && d - 1 - t.baseDist[c] == DistRest(d)
      && (DistBits(d) == 0 ==> Stream(DistRest(d), DistBits(d)) == NOTHING)
      && DistRest(d) < Pow2(DistBits(d))
  {
    hide LengthSymbol, DistRest, DistBits, SymVal, SymOp, DCode, DistSymbol, Pow2;
    DistDenoted(d);
    ExtraBitsAre(DistSymbol(d));
    PowerZero();
  }

  lemma RightSizes(t: Tables)
    requires Right(t)
    ensures |t.lengthCode| == 256 && |t.baseLength| == 29 && |t.distCode| == 512 && |t.baseDist| == 30
  {
    hide LengthSymbol, DistSymbol, SymVal, DCode;
  }

  lemma OnesNone(code: seq<nat>, ls: seq<nat>, len: nat)
    ensures Runs(code, ls, Repeat(One(len), 0)) && RunsStream(code, ls, Repeat(One(len), 0)) == NOTHING
  {
    assert Repeat(One(len), 0) == [];
    NoRuns(code, ls);
  }

  lemma NoneExtends(ls: seq<nat>)
    ensures ExtendAll(ls, []) == ls
  {
  }

  // ----- the trees of a block -----

  const BL_ORDER: seq<nat> := [16, 17, 18, 0, 8, 7, 9, 6, 10, 5, 11, 4, 12, 3, 13, 2, 14, 1, 15]

  lemma BlOrder(k: nat)
    requires k < 19
    ensures BL_ORDER[k] == OrderAt(k) < 19
  {
  }

  /** The header for these code lengths. */
  function HeaderOf(lit: seq<nat>, dst: seq<nat>, ncode: nat, code: seq<nat>): Header {
    Header(|lit|, |dst|, ncode, code, TreeRuns(lit) + TreeRuns(dst))
  }

  /** Code lengths that a header can tell, with a code length code that has all the words for it. */
  predicate ForHeader(lit: seq<nat>, dst: seq<nat>, ncode: nat, code: seq<nat>) {
    && 257 <= |lit| <= 286 && 1 <= |dst| <= 30 && 4 <= ncode <= 19 && |code| == 19
    && (forall i {:trigger lit[i]} :: 0 <= i < |lit| ==> lit[i] <= 15)
    && (forall i {:trigger dst[i]} :: 0 <= i < |dst| ==> dst[i] <= 15)
    && (forall s {:trigger code[s]} :: 0 <= s < 19 ==> code[s] <= 7)
    && (forall k: nat {:trigger OrderAt(k)} :: ncode <= k < 19 ==> code[OrderAt(k)] == 0)
    && HasWords(code, TreeRuns(lit)) && HasWords(code, TreeRuns(dst))
  }

  lemma HeaderOfTrees(lit: seq<nat>, dst: seq<nat>, ncode: nat, code: seq<nat>)
    requires ForHeader(lit, dst, ncode, code)
    ensures var h := HeaderOf(lit, dst, ncode, code);
      && IsHeader(h) && LengthsOf(h) == lit + dst
      && Runs(code, [], TreeRuns(lit)) && Runs(code, lit, TreeRuns(dst))
      && RunsStream(code, [], h.runs) == Then(RunsStream(code, [], TreeRuns(lit)), RunsStream(code, lit, TreeRuns(dst)))
  {
    hide TreeRuns, HasWords, Runs, RunsStream, ExtendAll, OrderAt, Then;
    TreeAreRuns(code, [], lit);
    TreeRunsGive([], lit);
    assert [] + lit == lit;
    TreeAreRuns(code, lit, dst);
    TreeRunsGive(lit, dst);
    RunsAppend(code, [], TreeRuns(lit), TreeRuns(dst));
    ExtendAllAppend([], TreeRuns(lit), TreeRuns(dst));
  }

  lemma InSequence(s: Stream, x: Stream, y: Stream, z: Stream, o: Stream, a: Stream, b: Stream)
    ensures Then(Then(Then(Then(Then(Then(s, x), y), z), o), a), b) ==
      Then(s, Then(x, Then(y, Then(z, Then(o, Then(a, b))))))
  {
    hide Then;
    ThenThen(Then(Then(Then(Then(s, x), y), z), o), a, b);
    ThenThen(Then(Then(Then(s, x), y), z), o, Then(a, b));
    ThenThen(Then(Then(s, x), y), z, Then(o, Then(a, b)));
    ThenThen(Then(s, x), y, Then(z, Then(o, Then(a, b))));
    ThenThen(s, x, Then(y, Then(z, Then(o, Then(a, b)))));
  }

  /** The code words of the static trees. */
  datatype StaticCodes = StaticCodes(lit: seq<nat>, dst: seq<nat>)

  predicate GoodStatic(st: StaticCodes) {
    HasCodes(FIXED_LIT, st.lit) && HasCodes(STATIC_DIST, st.dst)
  }

  /** The trees built for a block: code lengths and code words of the literal, distance and code length trees. */
  datatype Trees = Trees(lit: seq<nat>, litCodes: seq<nat>, dst: seq<nat>, dstCodes: seq<nat>, ncode: nat,
      code: seq<nat>, codes: seq<nat>)

  /** They have words for what the header and the end of the block need, and inflate_table() takes them. */
  predicate GoodTrees(tr: Trees) {
    && ForHeader(tr.lit, tr.dst, tr.ncode, tr.code) && tr.lit[256] > 0
    && HasCodes(tr.lit, tr.litCodes) && HasCodes(tr.dst, tr.dstCodes) && HasCodes(tr.code, tr.codes)
    && InflateTable.Result(Codes, tr.code, 7) == 0
    && InflateTable.Result(Lens, tr.lit, 9) == 0 && InflateTable.Result(Dists, tr.dst, 6) == 0
  }

  /** What the choice between the kinds of blocks rests on: sizes in bytes, the strategy Z_FIXED, the trees built. */
  datatype Choice = Choice(optLenb: nat, staticLenb: nat, fixedOnly: bool, tr: Trees)

  function HeaderIn(tr: Trees): Header {
    HeaderOf(tr.lit, tr.dst, tr.ncode, tr.code)
  }

  lemma HeaderLens(tr: Trees)
    requires GoodTrees(tr)
    ensures ForHeader(tr.lit, tr.dst, tr.ncode, tr.code) && IsHeader(HeaderIn(tr))
    ensures LitLens(HeaderIn(tr)) == tr.lit && DistLens(HeaderIn(tr)) == tr.dst && LengthsOf(HeaderIn(tr))[256] > 0
    ensures IsSymbol(tr.lit, 256)
  {
    hide ForHeader, InflateTable.Result, HasCodes, IsHeader, LengthsOf;
    HeaderOfTrees(tr.lit, tr.dst, tr.ncode, tr.code);
    LitSizes(tr);
    var ls := tr.lit + tr.dst;
    assert ls[..|tr.lit|] == tr.lit && ls[|tr.lit|..] == tr.dst;
  }

  lemma LitSizes(tr: Trees)
    requires ForHeader(tr.lit, tr.dst, tr.ncode, tr.code)
    ensures |tr.lit| > 256 && forall i {:trigger tr.lit[i]} :: 0 <= i < |tr.lit| ==> tr.lit[i] <= 15
  {
  }

  lemma FixedEnd()
    ensures IsSymbol(FIXED_LIT, 256) && |FIXED_LIT| == 288
  {
  }

  /** The static distance tree writes the fixed distance code. */
  lemma {:induction false} StaticTokens(ts: seq<Token>)
    requires AllWritable(FIXED_LIT, FIXED_DIST, ts)
    ensures AllWritable(FIXED_LIT, STATIC_DIST, ts) && |FIXED_LIT| > 256
    ensures TokensStream(FIXED_LIT, STATIC_DIST, ts) == TokensStream(FIXED_LIT, FIXED_DIST, ts)
  {
    hide TokenStream, Writable, Then, FIXED_LIT, FIXED_DIST, STATIC_DIST;
    FixedEnd();
    if ts != [] {
      StaticTokens(ts[1..]);
      StaticToken(ts[0]);
      forall i {:trigger ts[i]} | 0 <= i < |ts|
        ensures Writable(FIXED_LIT, STATIC_DIST, ts[i])
      {
        StaticToken(ts[i]);
      }
    }
  }

  lemma StaticToken(t: Token)
    requires Writable(FIXED_LIT, FIXED_DIST, t)
    ensures Writable(FIXED_LIT, STATIC_DIST, t)
      && TokenStream(FIXED_LIT, STATIC_DIST, t) == TokenStream(FIXED_LIT, FIXED_DIST, t)
  {
    hide LengthStream, DistSymbol, LengthSymbol, CodeOf, Rev, Then, DistRest, DistBits, FIXED_LIT, FIXED_DIST;
    if t.Copy? {
      DistDenoted(t.distance);
      StaticDist(DistSymbol(t.distance));
    }
  }

  /**
    The end of build_bl_tree(): the last place of bl_order, from 3 on, with a length other than zero; 2
    without any.
   */
  method MaxBlIndex(code: seq<nat>) returns (max: nat)
    requires |code| == 19
    ensures 2 <= max <= 18 && (max >= 3 ==> code[OrderAt(max)] != 0)
    ensures forall k: nat {:trigger OrderAt(k)} :: max < k < 19 ==> code[OrderAt(k)] == 0
  {
    hide OrderAt;
    max := 18;
    while max >= 3
      invariant 2 <= max <= 18 && forall k: nat {:trigger OrderAt(k)} :: max < k < 19 ==> code[OrderAt(k)] == 0
    {
      BlOrder(max);
      if code[BL_ORDER[max]] != 0 { return; }
      max := max - 1;
    }
  }
}
