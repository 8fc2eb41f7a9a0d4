/**
  Whole runs of the matcher: any chunking of the input, any mixture of flushes (full ones forget the history),
  either algorithm.
 */
module DeflateSession {
  import opened Bits
  import opened Bytes
  import opened DeflateTokens
  import opened DeflateHash
  import opened DeflateMatch
  import opened DeflateState
  import opened DeflateWindow
  import opened DeflateSlow
  import opened DeflateRule
  import opened DeflateFast

  /** One call: new input, flush, and the number of blocks that fit into the output. */
  datatype Feed = Feed(input: seq<Byte>, flush: FlushMode, room: nat)

  function AllInput(fs: seq<Feed>): seq<Byte> {
    if fs == [] then [] else AllInput(fs[..|fs| - 1]) + fs[|fs| - 1].input
  }

  lemma AllInputMore(fs: seq<Feed>, i: nat)
    requires i < |fs|
    ensures AllInput(fs[..i + 1]) == AllInput(fs[..i]) + fs[i].input
  {
    assert fs[..i + 1][..i] == fs[..i];
  }

  ghost predicate Ready(m: Matcher, slow: bool)
    reads m, m.window, m.head, m.prev, m.dBuf, m.lBuf
  {
    if slow then SlowReady(m) else FastReady(m)
  }

  /** The tokens emitted so far are explained by the searches in the log. */
  ghost predicate Logged(m: Matcher, slow: bool, log: map<nat, Try>)
    reads m, m.dBuf, m.lBuf
  {
    if slow then SlowExplained(m, log) else FastExplained(m, log)
  }

  lemma StartReady(m: Matcher, slow: bool)
    requires m.Tracks() && HashReady(m.p, m.c, m.g) && m.p.litBufsize >= 2 && m.blocks == [] && m.g.data == []
      && m.g.base == 0
    requires m.c.strstart == m.c.lookahead == m.c.blockStart == m.c.lastLit == 0 && !m.c.available
      && m.c.matchLength == 2 && m.c.prevLength == 2
    ensures Ready(m, slow) && Logged(m, slow, map[])
  {
    hide Tracked, HashReady, WSize;
    assert m.Buffered() == [] && AllTokens([]) + [] == [];
    assert m.g.data[..0] == [];
  }

  lemma ReadyBlocks(m: Matcher, slow: bool)
    requires Ready(m, slow)
    ensures exists end: nat :: Blocks(m.blocks, m.g.data, end)
  {
    hide Tracked, HashReady, WSize, Pending, Blocks, Emitted;
    if slow {
      EmittedBlocks(m.p, m.g, m.c.blockStart, m.blocks, m.Buffered(), EmittedEnd(m.c, m.g));
    } else {
      EmittedBlocks(m.p, m.g, m.c.blockStart, m.blocks, m.Buffered(), m.g.base + m.c.strstart);
    }
    var end: nat := m.g.base + m.c.blockStart;
    assert Blocks(m.blocks, m.g.data, end);
  }

  /** Forgetting the history after a block keeps everything but the chains. */
  method Restart(m: Matcher, slow: bool, ghost log: map<nat, Try>)
    requires Ready(m, slow) && AllHandedOver(m) && Logged(m, slow, log)
    modifies m`c, m`g, m.head
    ensures Ready(m, slow) && AllHandedOver(m) && m.g.data == old(m.g.data) && Logged(m, slow, log)
  {
    hide Tracked, HashReady, WSize, Blocks, Expand, ByRule, Log;
    TrackedCursor(m.p, m.c, m.window[..], m.head[..], m.prev[..], m.g);
    m.ForgetHistory();
  }

  /**
    deflate(), the bit output aside: one call on what is left of the input and some more; finished is
    FINISH_STATE, done says that all input was handed over in blocks.
   */
  method Call(m: Matcher, slow: bool, rest: seq<Byte>, f: Feed, finished: bool, done: bool, ghost sofar: seq<Byte>,
      ghost log: map<nat, Try>)
    returns (rest': seq<Byte>, finished': bool, done': bool, ghost log': map<nat, Try>)
    requires Ready(m, slow) && Logged(m, slow, log) && sofar == m.g.data + rest
      && (done ==> AllHandedOver(m) && rest == [])
    modifies m`c, m`g, m`blocks, m.window, m.head, m.prev, m.dBuf, m.lBuf
    ensures Ready(m, slow) && Logged(m, slow, log') && sofar + f.input == m.g.data + rest'
    ensures done' ==> AllHandedOver(m) && rest' == []
    ensures !done' ==> f.flush == NoFlush || finished || |m.blocks| >= f.room
    ensures finished' ==> finished || f.flush == Finish
  {
    hide Blocks, WSize, SlowReady, FastReady, AllHandedOver, SlowExplained, FastExplained;
    var next := rest + f.input;
    assert sofar + f.input == m.g.data + next;
    log' := log;
    if finished && next != [] { return next, finished, false, log; }
    if next == [] && m.c.lookahead == 0 && (f.flush == NoFlush || finished) {
      return next, finished, done, log;
    }
    ghost var data := m.g.data;
    var state, left;
    if slow {
      rest', state, left, log' := DeflateSlow.DeflateSlow(m, next, f.flush, f.room, log);
    } else {
      rest', state, left, log' := DeflateFast.DeflateFast(m, next, f.flush, f.room, log);
    }
    finished', done' := finished || state in {FinishStarted, FinishDone}, state != NeedMore;
    assert next == next[..|next| - |rest'|] + rest';
    assert sofar + f.input == data + next == m.g.data + rest';
    if state == BlockDone && f.flush == FullFlush { Restart(m, slow, log'); }
  }

  /** What the blocks are worth when the session ends. */
  lemma Ends(m: Matcher, slow: bool, rest: seq<Byte>, all: seq<Byte>, done: bool)
    requires Ready(m, slow) && all == m.g.data + rest && (done ==> AllHandedOver(m) && rest == [])
    ensures exists end: nat :: Blocks(m.blocks, all, end)
    ensures done ==> Expand(AllTokens(m.blocks)) == Some(all)
  {
    hide Blocks, WSize, Ready, Expand;
    ReadyBlocks(m, slow);
    var end: nat :| Blocks(m.blocks, m.g.data, end);
    BlocksGrow(m.blocks, m.g.data, end, rest);
    if done {
      BlocksExpand(m.blocks, m.g.data, |m.g.data|);
      assert m.g.data[..|m.g.data|] == m.g.data && m.g.data + rest == m.g.data;
    }
  }

  /**
    The blocks always cut a prefix of the input into expansions of their tokens; when done, the tokens
    expand to the whole input. A flush, not after an earlier finish, is done if its blocks fit in the output.
    Every token is what the searches made, by the rule of the loop, call for.
   */
  method Session(p: Settings, slow: bool, fs: seq<Feed>)
    returns (blocks: seq<Block>, done: bool, ghost log: map<nat, Try>)
    requires ValidSettings(p)
    ensures exists end: nat :: Blocks(blocks, AllInput(fs), end)
    ensures done ==> Expand(AllTokens(blocks)) == Some(AllInput(fs))
    ensures fs != [] && fs[|fs| - 1].flush != NoFlush && |blocks| < fs[|fs| - 1].room && NoFinish(fs[..|fs| - 1]) ==>
      done
    ensures forall t {:trigger t in AllTokens(blocks)} :: t in AllTokens(blocks) ==> IsToken(t, MaxDist(p))
    ensures Explained(p, AllInput(fs), slow, AllTokens(blocks), log)
  {
    hide Blocks, WSize, Ready, Expand, AllHandedOver, Tracked, HashReady, AllInput, Logged;
    var m := new Matcher(p);
    StartReady(m, slow);
    var rest: seq<Byte> := [];
    var finished := false;
    done, log := false, map[];
    assert AllInput(fs[..0]) == [] by { NoInput(fs); }
    for i := 0 to |fs|
      invariant Ready(m, slow) && AllInput(fs[..i]) == m.g.data + rest && m.p == p
      invariant Logged(m, slow, log)
      invariant fresh(m) && fresh(m.window) && fresh(m.head) && fresh(m.prev) && fresh(m.dBuf) && fresh(m.lBuf)
      invariant done ==> AllHandedOver(m) && rest == []
      invariant finished ==> !NoFinish(fs[..i])
      invariant i > 0 && !done ==> fs[i - 1].flush == NoFlush || !NoFinish(fs[..i - 1]) || |m.blocks| >= fs[i - 1].room
    {
      AllInputMore(fs, i);
      assert fs[..i + 1][i] == fs[i]
        && forall k {:trigger fs[..i + 1][k]} :: 0 <= k < i ==> fs[..i + 1][k] == fs[..i][k];
      rest, finished, done, log := Call(m, slow, rest, fs[i], finished, done, AllInput(fs[..i]), log);
    }
    assert fs[..|fs|] == fs;
    Ends(m, slow, rest, AllInput(fs), done);
    BlocksExplained(m, slow, rest, AllInput(fs), log);
    BlocksTokens(m, slow);
    blocks := m.blocks;
  }

  /** What explains all tokens explains those of the blocks. */
  lemma BlocksExplained(m: Matcher, slow: bool, rest: seq<Byte>, all: seq<Byte>, log: map<nat, Try>)
    requires Ready(m, slow) && Logged(m, slow, log)
    requires all == m.g.data + rest
    ensures Explained(m.p, all, slow, AllTokens(m.blocks), log)
  {
    hide Tracked, HashReady, WSize, Pending, Emitted, ByRule, Tried;
    TrackedCursor(m.p, m.c, m.window[..], m.head[..], m.prev[..], m.g);
    LogGrow(m.p, m.g.data, slow, log, m.g.base + m.c.strstart, rest, |all|);
    ByRulePrefix(slow, AllTokens(m.blocks), m.Buffered(), log);
  }

  /** Every token is a byte, or a length and a distance that a block can hold. */
  lemma BlocksTokens(m: Matcher, slow: bool)
    requires Ready(m, slow)
    ensures forall t {:trigger t in AllTokens(m.blocks)} :: t in AllTokens(m.blocks) ==> IsToken(t, MaxDist(m.p))
  {
    hide Tracked, HashReady, Pending, Blocks, Expand;
  }

  lemma {:induction false} ByRulePrefix(slow: bool, ts: seq<Token>, more: seq<Token>, log: map<nat, Try>)
    requires ByRule(slow, ts + more, log)
    ensures ByRule(slow, ts, log)
    decreases |more|
  {
    if more == [] {
      assert ts + more == ts;
    } else {
      assert (ts + more)[..|ts + more| - 1] == ts + more[..|more| - 1];
      ByRulePrefix(slow, ts, more[..|more| - 1], log);
    }
  }

  predicate NoFinish(fs: seq<Feed>) {
    forall k :: 0 <= k < |fs| ==> fs[k].flush != Finish
  }

  lemma NoInput(fs: seq<Feed>)
    ensures AllInput(fs[..0]) == []
  {
  }
}
