/** picojson's recursive parser, over an input with one character of pushback. */
module JsonParse {
  import opened Bytes
  import opened Json
  import opened JsonInput

  // ----- escapes -----

  /** The value of a hexadecimal digit, or -1. */
  function HexValue(c: Byte): int {
    if 48 <= c <= 57 then c - 48
    else if 65 <= c <= 70 then c - 55
    else if 97 <= c <= 102 then c - 87
    else -1
  }

  /** The value of the n hexadecimal digits at p, or -1. */
  function Hex(s: Text, p: nat, n: nat): (u: int)
    requires p <= |s|
    ensures u >= -1
  {
    if n == 0 then 0
    else
      var h := Hex(s, p, n - 1);
      if h < 0 || p + n > |s| || HexValue(s[p + n - 1]) < 0 then -1 else 16 * h + HexValue(s[p + n - 1])
  }

  /** _parse_quadhex() */
  method ParseQuadHex(inp: Input) returns (u: int)
    requires inp.Valid()
    modifies inp
    ensures inp.Valid() && old(inp.Pos()) <= inp.Pos()
    ensures u == Hex(inp.s, old(inp.Pos()), 4)
    ensures u >= 0 ==> inp.Pos() == old(inp.Pos()) + 4 && !inp.ungot
  {
    ghost var p := inp.Pos();
    u := 0;
    for i := 0 to 4
      invariant inp.Valid() && inp.Pos() == p + i && u == Hex(inp.s, p, i) && u >= 0 && (i > 0 ==> !inp.ungot)
    {
      var hex := inp.GetC();
      if hex == -1 {
        HexFails(inp.s, p, i + 1, 4);
        return -1;
      }
      if 48 <= hex <= 57 {
        hex := hex - 48;
      } else if 65 <= hex <= 70 {
        hex := hex - 55;
      } else if 97 <= hex <= 102 {
        hex := hex - 87;
      } else {
        inp.UngetC();
        HexFails(inp.s, p, i + 1, 4);
        return -1;
      }
      u := u * 16 + hex;
    }
  }

  lemma {:induction false} HexFails(s: Text, p: nat, m: nat, n: nat)
    requires p <= |s| && m <= n && Hex(s, p, m) < 0
    ensures Hex(s, p, n) == -1
  {
    if m < n { HexFails(s, p, m, n - 1); }
  }

  lemma {:induction false} HexBound(s: Text, p: nat, n: nat, b: nat)
    requires p <= |s| && n <= 4
      && b == (if n == 0 then 1 else if n == 1 then 16 else if n == 2 then 256 else if n == 3 then 4096 else 65536)
    ensures Hex(s, p, n) < b
  {
    if n > 0 { HexBound(s, p, n - 1, b / 16); }
  }

  /** A code point and where its escape ends. */
  datatype Scalar = Scalar(value: nat, end: nat)

  /** The code point of the escape whose digits start at p, and where it ends; a surrogate needs its partner. */
  function Codepoint(s: Text, p: nat): Option<Scalar>
    requires p <= |s|
  {
    var u := Hex(s, p, 4);
    if u < 0 || 0xdc00 <= u <= 0xdfff then None
    else if u < 0xd800 || u > 0xdfff then Some(Scalar(u, p + 4))
    else if p + 6 > |s| || s[p + 4] != 92 || s[p + 5] != 117 then None
    else
      var v := Hex(s, p + 6, 4);
      if 0xdc00 <= v <= 0xdfff then Some(Scalar((u - 0xd800) * 1024 + (v - 0xdc00) + 0x10000, p + 10)) else None
  }

  /** UTF-8 (RFC 3629). */
  function Utf8(u: nat): Text
    requires u < 0x110000
  {
    if u < 0x80 then [u]
    else if u < 0x800 then [192 + u / 64, 128 + u % 64]
    else if u < 0x10000 then [224 + u / 4096, 128 + u / 64 % 64, 128 + u % 64]
    else [240 + u / 262144, 128 + u / 4096 % 64, 128 + u / 64 % 64, 128 + u % 64]
  }

  /** The code point that a UTF-8 sequence stands for. */
  function Utf8Value(t: Text): int {
    if |t| == 1 then t[0]
    else if |t| == 2 then 64 * (t[0] as int - 192) + (t[1] as int - 128)
    else if |t| == 3 then 64 * (64 * (t[0] as int - 224) + (t[1] as int - 128)) + (t[2] as int - 128)
    else if |t| == 4 then
      64 * (64 * (64 * (t[0] as int - 240) + (t[1] as int - 128)) + (t[2] as int - 128)) + (t[3] as int - 128)
    else -1
  }

  lemma SixBits(u: nat)
    ensures u == 64 * (u / 64) + u % 64
    ensures u / 4096 == u / 64 / 64 && u / 262144 == u / 4096 / 64
  {
  }

  /** The encoding is one: it determines the code point. */
  lemma Utf8Decodes(u: nat)
    requires u < 0x110000
    ensures Utf8Value(Utf8(u)) == u
  {
    SixBits(u);
    SixBits(u / 64);
    SixBits(u / 4096);
  }

  lemma {:induction false} HexEnd(s: Text, p: nat, n: nat)
    requires p <= |s| && Hex(s, p, n) >= 0
    ensures p + n <= |s|
  {
    if n > 0 { HexEnd(s, p, n - 1); }
  }

  /** The end of _parse_codepoint: append a code point as UTF-8. */
  method AppendUtf8(out: Text, u: nat) returns (out': Text)
    requires u < 0x110000
    ensures out' == out + Utf8(u)
  {
    out' := out;
    if u < 0x80 {
      out' := out' + [u];
    } else {
      if u < 0x800 {
        out' := out' + [192 + u / 64];
      } else {
        if u < 0x10000 {
          out' := out' + [224 + u / 4096];
        } else {
          out' := out' + [240 + u / 262144];
          out' := out' + [128 + u / 4096 % 64];
        }
        out' := out' + [128 + u / 64 % 64];
      }
      out' := out' + [128 + u % 64];
    }
  }

  /** _parse_codepoint() */
  method ParseCodepoint(inp: Input, out: Text) returns (ok: bool, out': Text)
    requires inp.Valid()
    modifies inp
    ensures inp.Valid() && old(inp.Pos()) <= inp.Pos()
    ensures ok <==> Codepoint(inp.s, old(inp.Pos())).Some?
    ensures ok ==> var c := Codepoint(inp.s, old(inp.Pos())).value;
      c.value < 0x110000 && out' == out + Utf8(c.value) && inp.Pos() == c.end && !inp.ungot
  {
    hide Hex, Utf8;
    ghost var p := inp.Pos();
    out' := out;
    var u := ParseQuadHex(inp);
    if u == -1 { return false, out; }
    HexBound(inp.s, p, 4, 65536);
    if 0xd800 <= u <= 0xdfff {
      if 0xdc00 <= u { return false, out; }
      var ch := inp.GetC();
      if ch == 92 { ch := inp.GetC(); } else { ch := -2; }
      if ch != 117 {
        inp.UngetC();
        return false, out;
      }
      var second := ParseQuadHex(inp);
      if !(0xdc00 <= second <= 0xdfff) { return false, out; }
      u := (u - 0xd800) * 1024 + (second - 0xdc00);
      u := u + 0x10000;
    }
    out' := AppendUtf8(out, u);
    ok := true;
  }

  // ----- strings -----

  /** The character that a one-letter escape stands for, or -1. */
  function Unescape(c: int): int {
    if c in {34, 92, 47} then c
    else if c == 98 then 8
    else if c == 102 then 12
    else if c == 110 then 10
    else if c == 114 then 13
    else if c == 116 then 9
    else -1
  }

  /** Whether the text at p starts with e. */
  predicate At(s: Text, p: nat, e: Text) {
    p <= |s| && e <= s[p..]
  }

  lemma AtSplit(s: Text, p: nat, a: Text, b: Text)
    requires At(s, p, a + b)
    ensures At(s, p, a) && At(s, p + |a|, b)
  {
    assert s[p..][..|a + b|] == a + b;
    assert s[p + |a|..] == s[p..][|a|..];
  }

  lemma AtIndex(s: Text, p: nat, e: Text, i: nat)
    requires At(s, p, e) && i < |e|
    ensures p + i < |s| && s[p + i] == e[i]
  {
    assert s[p..][i] == e[i];
  }

  // ----- the grammar of strings -----

  /**
    One character of a string: as it is, or a one-letter escape, or one or two escapes with four hexadecimal
    digits.
   */
  datatype Item = Raw(c: Byte) | Short(letter: Byte) | Unicode(d: Text) | Pair(d: Text, e: Text)

  /** What RFC 8259, section 7, allows; a surrogate only together with its partner. */
  predicate IsItem(i: Item) {
    match i
    case Raw(c) => c >= 32 && c != 34 && c != 92
    case Short(letter) => Unescape(letter) >= 0
    case Unicode(d) => |d| == 4 && Hex(d, 0, 4) >= 0 && !(0xd800 <= Hex(d, 0, 4) <= 0xdfff)
    case Pair(d, e) => |d| == 4 && |e| == 4 && 0xd800 <= Hex(d, 0, 4) < 0xdc00 && 0xdc00 <= Hex(e, 0, 4) <= 0xdfff
  }

  /** How it is written. */
  function Written(i: Item): Text {
    match i
    case Raw(c) => [c]
    case Short(letter) => [92, letter]
    case Unicode(d) => [92, 117] + d
    case Pair(d, e) => [92, 117] + d + [92, 117] + e
  }

  /** The code point of an escape with hexadecimal digits. */
  function PointOf(i: Item): (u: nat)
    requires IsItem(i) && (i.Unicode? || i.Pair?)
    ensures u < 0x110000
  {
    HexBound(i.d, 0, 4, 65536);
    if i.Unicode? then Hex(i.d, 0, 4) else 0x10000 + 1024 * (Hex(i.d, 0, 4) - 0xd800) + (Hex(i.e, 0, 4) - 0xdc00)
  }

  /** What it stands for: a byte, or the UTF-8 encoding of a code point. */
  function Meaning(i: Item): (t: Text)
    requires IsItem(i)
    ensures i.Unicode? || i.Pair? ==> Utf8Value(t) == PointOf(i)
  {
    match i
    case Raw(c) => [c]
    case Short(letter) => [Unescape(letter)]
    case _ =>
      Utf8Decodes(PointOf(i));
      Utf8(PointOf(i))
  }

  predicate AllItems(items: seq<Item>) {
    forall k {:trigger items[k]} :: 0 <= k < |items| ==> IsItem(items[k])
  }

  function AllWritten(items: seq<Item>): Text {
    if items == [] then [] else Written(items[0]) + AllWritten(items[1..])
  }

  function AllMeaning(items: seq<Item>): Text
    requires AllItems(items)
  {
    if items == [] then [] else Meaning(items[0]) + AllMeaning(items[1..])
  }

  /** A quoted string, from after its opening quote. */
  predicate Quoted(s: Text, p: nat, items: seq<Item>) {
    AllItems(items) && At(s, p, AllWritten(items) + [34])
  }

  // ----- reading one character -----

  /** The item whose backslash stands before p. */
  function EscapeAt(s: Text, p: nat): Option<Item>
    requires p <= |s|
  {
    if p == |s| then None
    else if Unescape(s[p]) >= 0 then Some(Short(s[p]))
    else if s[p] != 117 || Codepoint(s, p + 1).None? then None
    else
      HexEnd(s, p + 1, 4);
      if Codepoint(s, p + 1).value.end == p + 5 then Some(Unicode(s[p + 1..p + 5]))
      else
        HexEnd(s, p + 7, 4);
        Some(Pair(s[p + 1..p + 5], s[p + 7..p + 11]))
  }

  /** The item at p; none at a quote, a control character or the end. */
  function ItemAt(s: Text, p: nat): Option<Item>
    requires p <= |s|
  {
    if p == |s| || s[p] < 32 || s[p] == 34 then None
    else if s[p] == 92 then EscapeAt(s, p + 1)
    else Some(Raw(s[p]))
  }

  /** Four digits in their place, and by themselves. */
  lemma {:induction false} HexSlice(s: Text, p: nat, n: nat)
    requires p + 4 <= |s| && n <= 4
    ensures Hex(s, p, n) == Hex(s[p..p + 4], 0, n)
  {
    if n > 0 {
      HexSlice(s, p, n - 1);
      assert s[p + n - 1] == s[p..p + 4][n - 1];
    }
  }

  /** What follows a backslash, and what it means. */
  lemma EscapeFacts(s: Text, p: nat)
    requires p <= |s| && EscapeAt(s, p).Some?
    ensures p < |s|
    ensures var i := EscapeAt(s, p).value;
      && IsItem(i) && !i.Raw? && p + |Written(i)| - 1 <= |s| && Written(i) == [92] + s[p..p + |Written(i)| - 1]
      && (i.Short? <==> Unescape(s[p]) >= 0)
      && (!i.Short? ==> s[p] == 117 && Codepoint(s, p + 1) == Some(Scalar(PointOf(i), p + |Written(i)| - 1)))
  {
    hide Hex;
    var i := EscapeAt(s, p).value;
    if i.Unicode? {
      HexEnd(s, p + 1, 4);
      HexSlice(s, p + 1, 4);
      assert Written(i) == [92] + s[p..p + 5];
    } else if i.Pair? {
      HexEnd(s, p + 1, 4);
      HexSlice(s, p + 1, 4);
      HexEnd(s, p + 7, 4);
      HexSlice(s, p + 7, 4);
      PairWritten(s, p);
    }
  }

  lemma PairWritten(s: Text, p: nat)
    requires p + 11 <= |s| && s[p] == 117 && s[p + 5] == 92 && s[p + 6] == 117
    ensures [92, 117] + s[p + 1..p + 5] + [92, 117] + s[p + 7..p + 11] == [92] + s[p..p + 11]
  {
  }

  /** The item at p is one, and it is written there. */
  lemma ItemFacts(s: Text, p: nat)
    requires p <= |s| && ItemAt(s, p).Some?
    ensures var i := ItemAt(s, p).value; IsItem(i) && At(s, p, Written(i)) && p < p + |Written(i)| <= |s|
  {
    hide Hex, Codepoint, EscapeAt, Written;
    if s[p] == 92 {
      EscapeFacts(s, p + 1);
      var i := EscapeAt(s, p + 1).value;
      assert s[p..p + |Written(i)|] == [92] + s[p + 1..p + |Written(i)|];
    } else {
      WrittenRaw(s[p]);
    }
  }

  lemma WrittenRaw(c: Byte)
    ensures Written(Raw(c)) == [c]
  {
  }

  /** Whatever item is written at p is the one that is read there. */
  lemma ItemIs(s: Text, p: nat, i: Item)
    requires p <= |s| && IsItem(i) && At(s, p, Written(i))
    ensures ItemAt(s, p) == Some(i)
  {
    hide Hex;
    var w := Written(i);
    AtIndex(s, p, w, 0);
    assert forall k {:trigger w[k]} :: 0 <= k < |w| ==> s[p + k] == w[k] by {
      forall k {:trigger w[k]} | 0 <= k < |w| ensures s[p + k] == w[k] { AtIndex(s, p, w, k); }
    }
    match i {
      case Raw(_) =>
      case Short(_) => AtIndex(s, p, w, 1);
      case Unicode(d) => UnicodeIs(s, p, d);
      case Pair(d, e) => PairIs(s, p, d, e);
    }
  }

  lemma UnicodeIs(s: Text, p: nat, d: Text)
    requires IsItem(Unicode(d)) && At(s, p, [92, 117] + d)
    ensures p + 2 <= |s| && s[p + 1] == 117 && EscapeAt(s, p + 1) == Some(Unicode(d))
  {
    hide Hex;
    AtSplit(s, p, [92, 117], d);
    AtIndex(s, p, [92, 117] + d, 1);
    AtIndex(s, p, [92, 117] + d, 5);
    AtSlice(s, p + 2, d);
    HexSlice(s, p + 2, 4);
  }

  lemma PairIs(s: Text, p: nat, d: Text, e: Text)
    requires IsItem(Pair(d, e)) && At(s, p, [92, 117] + d + [92, 117] + e)
    ensures p + 2 <= |s| && s[p + 1] == 117 && EscapeAt(s, p + 1) == Some(Pair(d, e))
  {
    hide Hex;
    assert [92, 117] + d + [92, 117] + e == [92, 117] + (d + ([92, 117] + e));
    AtIndex(s, p, [92, 117] + (d + ([92, 117] + e)), 1);
    AtSplit(s, p, [92, 117], d + ([92, 117] + e));
    AtSplit(s, p + 2, d, [92, 117] + e);
    AtIndex(s, p + 6, [92, 117] + e, 0);
    AtIndex(s, p + 6, [92, 117] + e, 1);
    AtSplit(s, p + 6, [92, 117], e);
    AtSlice(s, p + 2, d);
    AtSlice(s, p + 8, e);
    HexSlice(s, p + 2, 4);
    HexSlice(s, p + 8, 4);
  }

  lemma AtSlice(s: Text, p: nat, d: Text)
    requires At(s, p, d) && |d| == 4
    ensures p + 4 <= |s| && s[p..p + 4] == d
  {
    assert s[p..][..4] == s[p..p + 4];
  }

  // ----- reading a string -----

  /** At the closing quote, or at the first item and the rest of the string after it. */
  lemma QuotedStep(s: Text, p: nat, items: seq<Item>)
    requires Quoted(s, p, items)
    ensures p < |s| && (s[p] == 34 <==> items == [])
    ensures items != [] ==> ItemAt(s, p) == Some(items[0]) && Quoted(s, p + |Written(items[0])|, items[1..])
  {
    hide ItemAt, Written, IsItem;
    if items == [] {
      assert AllWritten(items) + [34] == [34];
      AtIndex(s, p, [34], 0);
    } else {
      var w, rest := Written(items[0]), AllWritten(items[1..]) + [34];
      assert AllWritten(items) + [34] == w + rest;
      AtSplit(s, p, w, rest);
      ItemIs(s, p, items[0]);
      ItemStarts(s, p);
    }
  }

  lemma ItemStarts(s: Text, p: nat)
    requires p <= |s| && ItemAt(s, p).Some?
    ensures p < |s| && s[p] != 34 && s[p] >= 32
  {
  }

  lemma {:induction false} WrittenMore(items: seq<Item>, i: Item)
    ensures AllWritten(items + [i]) == AllWritten(items) + Written(i)
  {
    hide Written;
    if items == [] {
      assert (items + [i])[1..] == [];
    } else {
      assert (items + [i])[1..] == items[1..] + [i];
      WrittenMore(items[1..], i);
    }
  }

  lemma {:induction false} MeaningMore(items: seq<Item>, i: Item)
    requires AllItems(items) && IsItem(i)
    ensures AllItems(items + [i]) && AllMeaning(items + [i]) == AllMeaning(items) + Meaning(i)
  {
    hide Meaning, IsItem;
    if items == [] {
      assert (items + [i])[1..] == [];
    } else {
      assert (items + [i])[1..] == items[1..] + [i];
      MeaningMore(items[1..], i);
    }
  }

  /** The items read so far, from p to q, and what they mean. */
  ghost predicate ReadSoFar(s: Text, p: nat, q: nat, items: seq<Item>, out: Text) {
    && p <= q <= |s| && AllItems(items) && s[p..q] == AllWritten(items) && out == AllMeaning(items)
  }

  lemma ReadNone(s: Text, p: nat)
    requires p <= |s|
    ensures ReadSoFar(s, p, p, [], [])
  {
  }

  lemma ReadMore(s: Text, p: nat, q: nat, items: seq<Item>, out: Text)
    requires ReadSoFar(s, p, q, items, out) && ItemAt(s, q).Some?
    ensures var i := ItemAt(s, q).value; IsItem(i) && ReadSoFar(s, p, q + |Written(i)|, items + [i], out + Meaning(i))
  {
    hide ItemAt, Written, Meaning, IsItem, AllWritten, AllMeaning;
    var i := ItemAt(s, q).value;
    ItemFacts(s, q);
    WrittenMore(items, i);
    MeaningMore(items, i);
    assert s[q..][..|Written(i)|] == Written(i);
    assert s[p..q + |Written(i)|] == s[p..q] + Written(i);
  }

  /** At the closing quote: this is the one way to read the string. */
  lemma ReadAll(s: Text, p: nat, q: nat, items: seq<Item>, out: Text)
    requires ReadSoFar(s, p, q, items, out) && q < |s| && s[q] == 34
    ensures Quoted(s, p, items)
    ensures forall other {:trigger Quoted(s, p, other)} :: Quoted(s, p, other) ==> other == items
  {
    hide AllWritten, AllMeaning, IsItem;
    assert s[p..][..q - p] == s[p..q];
    assert s[p..][..q - p + 1] == AllWritten(items) + [34];
    forall other {:trigger Quoted(s, p, other)} | Quoted(s, p, other)
      ensures other == items
    {
      QuotedUnique(s, p, items, other);
    }
  }

  lemma {:induction false} QuotedUnique(s: Text, p: nat, a: seq<Item>, b: seq<Item>)
    requires Quoted(s, p, a) && Quoted(s, p, b)
    ensures a == b
    decreases |a|
  {
    hide Quoted, ItemAt, Written;
    QuotedStep(s, p, a);
    QuotedStep(s, p, b);
    if a != [] {
      QuotedUnique(s, p + |Written(a[0])|, a[1..], b[1..]);
      assert a == [a[0]] + a[1..] && b == [b[0]] + b[1..];
    }
  }

  /** Where neither a quote nor an item follows, no string is written. */
  lemma {:induction false} ReadFails(s: Text, p: nat, q: nat, items: seq<Item>, out: Text, other: seq<Item>)
    requires ReadSoFar(s, p, q, items, out) && ItemAt(s, q).None? && (q < |s| ==> s[q] != 34)
    ensures !Quoted(s, p, other)
    decreases |items|
  {
    hide ItemAt, Written, Quoted, Meaning, IsItem;
    if Quoted(s, p, other) {
      QuotedStep(s, p, other);
      if items != [] {
        var n := |Written(items[0])|;
        assert s[p..q] == Written(items[0]) + AllWritten(items[1..]);
        assert At(s, p, Written(items[0])) by { assert s[p..][..n] == s[p..q][..n]; }
        ItemIs(s, p, items[0]);
        ItemStarts(s, p);
        assert s[p + n..q] == s[p..q][n..];
        ReadFails(s, p + n, q, items[1..], AllMeaning(items[1..]), other[1..]);
      }
    }
  }

  /** The character after the backslash. */
  method ParseEscape(inp: Input, out: Text) returns (ok: bool, out': Text)
    requires inp.Valid()
    modifies inp
    ensures inp.Valid() && old(inp.Pos()) <= inp.Pos()
    ensures ok <==> EscapeAt(inp.s, old(inp.Pos())).Some?
    ensures ok ==> var i := EscapeAt(inp.s, old(inp.Pos())).value;
      IsItem(i) && out' == out + Meaning(i) && inp.Pos() == old(inp.Pos()) + |Written(i)| - 1 && !inp.ungot
  {
    hide Codepoint, Utf8, Hex, PointOf;
    ok, out' := true, out;
    ghost var p := inp.Pos();
    if EscapeAt(inp.s, p).Some? { EscapeFacts(inp.s, p); }
    var ch := inp.GetC();
    if ch == -1 { return false, out; }
    match ch {
      case 34 => out' := out + [34];
      case 92 => out' := out + [92];
      case 47 => out' := out + [47];
      case 98 => out' := out + [8];
      case 102 => out' := out + [12];
      case 110 => out' := out + [10];
      case 114 => out' := out + [13];
      case 116 => out' := out + [9];
      case 117 => ok, out' := ParseCodepoint(inp, out);
      case _ => ok := false;
    }
  }

  /**
    _parse_string(), after the opening quote: it succeeds exactly on the strings of the grammar, returns
    what their items mean, and stops behind the closing quote.
   */
  method ParseString(inp: Input) returns (ok: bool, out: Text)
    requires inp.Valid()
    modifies inp
    ensures inp.Valid() && old(inp.Pos()) <= inp.Pos() && (ok ==> old(inp.Pos()) < inp.Pos() && !inp.ungot)
    ensures ok <==> exists items :: Quoted(inp.s, old(inp.Pos()), items)
    ensures forall items {:trigger Quoted(inp.s, old(inp.Pos()), items)} :: Quoted(inp.s, old(inp.Pos()), items) ==>
      AllItems(items) && out == AllMeaning(items) && inp.Pos() == old(inp.Pos()) + |AllWritten(items)| + 1
  {
    hide Codepoint, Utf8, Unescape, At, IsItem, Meaning, Written, EscapeAt, AllItems, AllMeaning, AllWritten, Quoted,
      ReadSoFar;
    out := [];
    ghost var p, items: seq<Item> := inp.Pos(), [];
    ReadNone(inp.s, p);
    while true
      invariant inp.Valid() && p <= inp.Pos() && ReadSoFar(inp.s, p, inp.Pos(), items, out)
      decreases |inp.s| - inp.Pos()
    {
      ghost var q, out0 := inp.Pos(), out;
      if ItemAt(inp.s, q).Some? {
        ItemFacts(inp.s, q);
        ReadMore(inp.s, p, q, items, out);
      } else if q == |inp.s| || inp.s[q] != 34 {
        forall other { ReadFails(inp.s, p, q, items, out, other); }
      }
      var ch := inp.GetC();
      if ch < 32 {
        inp.UngetC();
        return false, out;
      } else if ch == 34 {
        ReadAll(inp.s, p, q, items, out);
        ReadLength(inp.s, p, q, items, out);
        return true, out;
      } else if ch == 92 {
        ok, out := ParseEscape(inp, out);
        if !ok { return; }
      } else {
        out := out + [ch];
        RawFacts(ch);
      }
      items := items + [ItemAt(inp.s, q).value];
    }
  }

  lemma ReadLength(s: Text, p: nat, q: nat, items: seq<Item>, out: Text)
    requires ReadSoFar(s, p, q, items, out)
    ensures AllItems(items) && out == AllMeaning(items) && q == p + |AllWritten(items)|
  {
    hide AllWritten, AllMeaning, IsItem;
  }

  lemma RawFacts(c: Byte)
    requires IsItem(Raw(c))
    ensures Meaning(Raw(c)) == [c] && Written(Raw(c)) == [c]
  {
  }

  // ----- serialized strings -----

  /** The item that the printer writes for a character. */
  function Printed(c: Byte): Item {
    var e := Escape(c);
    if |e| == 1 then Raw(c) else if |e| == 2 then Short(e[1]) else Unicode(e[2..])
  }

  lemma PrintedFacts(c: Byte)
    ensures IsItem(Printed(c)) && Written(Printed(c)) == Escape(c) && Meaning(Printed(c)) == [c]
  {
    hide Hex;
    if |Escape(c)| == 6 {
      HexOfByte(c);
      assert Escape(c)[2..] == [48, 48, HexDigit(c / 16), HexDigit(c % 16)];
    }
  }

  /** The digits of a control character. */
  lemma HexOfByte(c: Byte)
    requires c < 128
    ensures Hex([48, 48, HexDigit(c / 16), HexDigit(c % 16)], 0, 4) == c
  {
    var e := [48, 48, HexDigit(c / 16), HexDigit(c % 16)];
    assert Hex(e, 0, 0) == 0;
    assert Hex(e, 0, 1) == 0;
    assert Hex(e, 0, 2) == 0;
    assert Hex(e, 0, 3) == c / 16;
  }

  /** The items that the printer writes from the k-th character on. */
  function PrintedFrom(w: Text, k: nat): seq<Item>
    requires k <= |w|
    decreases |w| - k
  {
    if k == |w| then [] else [Printed(w[k])] + PrintedFrom(w, k + 1)
  }

  lemma {:induction false} PrintedAll(w: Text, k: nat)
    requires k <= |w|
    ensures AllItems(PrintedFrom(w, k)) && AllWritten(PrintedFrom(w, k)) == EscapeFrom(w, k)
      && AllMeaning(PrintedFrom(w, k)) == w[k..]
    decreases |w| - k
  {
    hide Printed, IsItem, Written, Meaning, Escape;
    if k < |w| {
      PrintedFacts(w[k]);
      PrintedAll(w, k + 1);
      assert PrintedFrom(w, k)[1..] == PrintedFrom(w, k + 1);
    }
  }
}
