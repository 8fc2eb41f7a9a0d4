/** The token stream of the matcher and what it stands for. */
module DeflateTokens {
  import opened Bytes
  import InflateCopy

  const MIN_MATCH: nat := 3
  const MAX_MATCH: nat := 258
  const MIN_LOOKAHEAD: nat := 262

  /** A literal byte, or the length bytes that start distance back. */
  datatype Token = Literal(byte: Byte) | Copy(distance: nat, length: nat)

  predicate IsToken(t: Token, maxDist: int) {
    t.Copy? ==> 1 <= t.distance <= maxDist && MIN_MATCH <= t.length <= MAX_MATCH
  }

  /** One token; None when its distance goes back before the start. Bytes are copied as inflate copies them. */
  function Apply(out: Option<seq<Byte>>, t: Token): Option<seq<Byte>> {
    match out
    case None => None
    case Some(s) =>
      match t
      case Literal(b) => Some(s + [b])
      case Copy(d, n) => if 1 <= d <= |s| then Some(InflateCopy.MatchOut(s, d, n)) else None
  }

  function Expand(ts: seq<Token>): Option<seq<Byte>> {
    if ts == [] then Some([]) else Apply(Expand(ts[..|ts| - 1]), ts[|ts| - 1])
  }

  lemma ExpandMore(ts: seq<Token>, t: Token)
    ensures Expand(ts + [t]) == Apply(Expand(ts), t)
  {
    assert (ts + [t])[..|ts|] == ts;
  }

  /** n bytes at p repeat those d before. */
  predicate Repeats(data: seq<Byte>, p: nat, d: nat, n: nat) {
    1 <= d <= p && p + n <= |data| && forall i {:trigger data[i]} :: p <= i < p + n ==> data[i] == data[i - d]
  }

  /** Copying a genuine match reproduces the data. */
  lemma {:induction false} CopyRepeats(data: seq<Byte>, p: nat, d: nat, n: nat)
    requires Repeats(data, p, d, n)
    ensures InflateCopy.MatchOut(data[..p], d, n) == data[..p + n]
  {
    if n > 0 {
      CopyRepeats(data, p, d, n - 1);
      assert data[..p + n] == data[..p + n - 1] + [data[p + n - 1]];
    } else {
      assert data[..p + n] == data[..p];
    }
  }

  /** A block handed to the bit output: where its bytes are if still in the window, how many, its tokens. */
  datatype Block = Block(stored: Option<seq<Byte>>, storedLen: int, tokens: seq<Token>, last: bool)

  function AllTokens(blocks: seq<Block>): seq<Token> {
    if blocks == [] then [] else AllTokens(blocks[..|blocks| - 1]) + blocks[|blocks| - 1].tokens
  }

  lemma AllTokensMore(blocks: seq<Block>, b: Block)
    ensures AllTokens(blocks + [b]) == AllTokens(blocks) + b.tokens
  {
    assert (blocks + [b])[..|blocks|] == blocks;
  }

  /** The blocks cut the data into consecutive stretches up to `end`, each the expansion of its tokens. */
  predicate Blocks(blocks: seq<Block>, data: seq<Byte>, end: nat)
  {
    if blocks == [] then end == 0
    else
      var b, before := blocks[|blocks| - 1], blocks[..|blocks| - 1];
      && 0 <= b.storedLen <= end <= |data|
      && Blocks(before, data, end - b.storedLen)
      && Expand(AllTokens(blocks)) == Some(data[..end])
      && (b.stored.Some? ==> b.stored.value == data[end - b.storedLen..end])
  }

  lemma BlocksExpand(blocks: seq<Block>, data: seq<Byte>, end: nat)
    requires Blocks(blocks, data, end)
    ensures end <= |data| && Expand(AllTokens(blocks)) == Some(data[..end])
  {
  }

  lemma {:induction false} BlocksGrow(blocks: seq<Block>, data: seq<Byte>, end: nat, more: seq<Byte>)
    requires Blocks(blocks, data, end)
    ensures Blocks(blocks, data + more, end)
  {
    if blocks != [] {
      var b := blocks[|blocks| - 1];
      BlocksGrow(blocks[..|blocks| - 1], data, end - b.storedLen, more);
      assert (data + more)[..end] == data[..end];
      assert (data + more)[end - b.storedLen..end] == data[end - b.storedLen..end];
    }
  }
}
