/**
  What a decoding table means: entries, two-level lookup, and the relation between a
  table and the canonical code it decodes. Nothing here depends on how tables are built.
 */
module DecodeTable {
  import opened Bits
  import opened Canonical

  datatype Kind = Codes | Lens | Dists

  /** A table entry: operation, bits to drop, value or offset. */
  datatype Entry = Entry(op: nat, bits: nat, val: nat)

  const ENOUGH_LENS: nat := 852
  const ENOUGH_DISTS: nat := 592

  const LENGTH_BASE: seq<nat> := [
    3, 4, 5, 6, 7, 8, 9, 10, 11, 13, 15, 17, 19, 23, 27, 31,
    35, 43, 51, 59, 67, 83, 99, 115, 131, 163, 195, 227, 258, 0, 0]
  const LENGTH_EXTRA: seq<nat> := [
    16, 16, 16, 16, 16, 16, 16, 16, 17, 17, 17, 17, 18, 18, 18, 18,
    19, 19, 19, 19, 20, 20, 20, 20, 21, 21, 21, 21, 16, 73, 195]
  const DIST_BASE: seq<nat> := [
    1, 2, 3, 4, 5, 7, 9, 13, 17, 25, 33, 49, 65, 97, 129, 193, 257, 385, 513, 769,
    1025, 1537, 2049, 3073, 4097, 6145, 8193, 12289, 16385, 24577, 0, 0]
  const DIST_EXTRA: seq<nat> := [
    16, 16, 16, 16, 17, 17, 18, 18, 19, 19, 20, 20, 21, 21, 22, 22,
    23, 23, 24, 24, 25, 25, 26, 26, 27, 27, 28, 28, 29, 29, 64, 64]

  /** Number of symbols the tables of a kind can describe. */
  function Alphabet(kind: Kind): nat {
    match kind
    case Codes => 19
    case Lens => 288
    case Dists => 32
  }

  /** Operation of a symbol: 0 a plain value, 96 end of block, otherwise extra bits. */
  function SymOp(kind: Kind, sym: nat): (op: nat)
    requires sym < Alphabet(kind)
    ensures op == 0 || op >= 16
  {
    match kind
    case Codes => 0
    case Lens => if sym < 256 then 0 else if sym == 256 then 96 else LENGTH_EXTRA[sym - 257]
    case Dists => DIST_EXTRA[sym]
  }

  function SymVal(kind: Kind, sym: nat): nat
    requires sym < Alphabet(kind)
  {
    match kind
    case Codes => sym
    case Lens => if sym < 256 then sym else if sym == 256 then 0 else LENGTH_BASE[sym - 257]
    case Dists => DIST_BASE[sym]
  }

  predicate IsLink(e: Entry) {
    0 < e.op < 16
  }

  /** Both steps of looking up the stream h stay inside the table. */
  predicate InTable(t: seq<Entry>, b: nat, root: nat, h: nat) {
    && b + Lo(h, root) < |t|
    && var e := t[b + Lo(h, root)];
       IsLink(e) ==> b + e.val + Lo(Hi(h, root), e.op) < |t|
  }

  /** The entry for stream h of the table at b, with bits counting both levels. */
  function Lookup(t: seq<Entry>, b: nat, root: nat, h: nat): Entry
    requires InTable(t, b, root, h)
  {
    var e := t[b + Lo(h, root)];
    if IsLink(e) then
      var e2 := t[b + e.val + Lo(Hi(h, root), e.op)];
      Entry(e2.op, e.bits + e2.bits, e2.val)
    else e
  }

  /**
    Looking up h gives exactly the symbol whose code word h starts with, or the invalid marker;
    only codes longer than root go through a link.
   */
  ghost predicate DecodesStream(t: seq<Entry>, b: nat, root: nat, kind: Kind, lens: seq<nat>, h: nat)
    requires |lens| <= Alphabet(kind)
  {
    && InTable(t, b, root, h)
    && var e := t[b + Lo(h, root)];
    && (IsLink(e) ==> e.bits == root)
    && (forall sym: nat :: Matches(lens, sym, h) ==>
          && Lookup(t, b, root, h) == Entry(SymOp(kind, sym), lens[sym], SymVal(kind, sym))
          && (lens[sym] <= root ==> !IsLink(e)))
    && ((forall sym: nat :: !Matches(lens, sym, h)) ==> e == Entry(64, 1, 0))
  }

  /** The table decodes the canonical code of lens on every stream. */
  ghost predicate Decodes(t: seq<Entry>, b: nat, root: nat, kind: Kind, lens: seq<nat>)
    requires |lens| <= Alphabet(kind)
  {
    forall h: nat :: DecodesStream(t, b, root, kind, lens, h)
  }
}
