/**
  The characters of JSON by name: digits, letters of escapes, words and punctuation; and code points and their
  halves.
 */
module JsonCheck {
  import opened Bytes
  import opened Json
  import opened JsonInput
  import opened JsonParse
  import opened JsonTree

  /** A text of ASCII characters. */
  function Ascii(w: string): (t: Text)
    requires forall i {:trigger w[i]} :: 0 <= i < |w| ==> w[i] as int < 128
    ensures |t| == |w|
  {
    seq(|w|, i requires 0 <= i < |w| => w[i] as int)
  }

  // ----- characters -----

  const DIGITS: string := "0123456789abcdef"
  const CAPITALS: string := "0123456789ABCDEF"

  /** The hexadecimal digits are these characters, and no others. */
  lemma HexDigits(c: Byte, v: nat)
    requires v < 16
    ensures HexValue(c) == v <==> c == DIGITS[v] as int || c == CAPITALS[v] as int
    ensures HexValue(c) < 16
  {
  }

  const LETTERS: string := "\"\\/bfnrt"
  const MEANT: string := "\"\\/\U{0008}\U{000c}\n\r\t"

  /** The letters of section 7 of RFC 8259, with what they stand for, are the one-letter escapes. */
  lemma Letters(c: Byte)
    ensures forall k {:trigger LETTERS[k]} :: 0 <= k < 8 ==> Unescape(LETTERS[k] as int) == MEANT[k] as int
    ensures Unescape(c) >= 0 ==> exists k {:trigger LETTERS[k]} :: 0 <= k < 8 && c == LETTERS[k] as int
  {
    assert |LETTERS| == 8 && |MEANT| == 8;
    if Unescape(c) >= 0 {
      var k := if c == 34 then 0 else if c == 92 then 1 else if c == 47 then 2 else if c == 98 then 3 else if c == 102
        then 4 else if c == 110 then 5 else if c == 114 then 6 else 7;
      assert c == LETTERS[k] as int;
    }
  }

  /** White space, and the characters a number is made of. */
  lemma Classes(c: Byte)
    ensures IsSpace(c) <==> c as char in " \t\n\r"
    ensures IsNumberChar(c) <==> c as char in "0123456789+-.eE"
    ensures StartsNumber(c) <==> c as char in "0123456789-"
  {
  }

  /** The three words, and the brackets and commas of arrays. */
  lemma WordTexts()
    ensures TextOf(Word([], Null)) == Ascii("null")
    ensures TextOf(Word([], Bool(true))) == Ascii("true") && TextOf(Word([], Bool(false))) == Ascii("false")
  {
  }

  lemma ArrayParts(a: Elem, b: Elem)
    requires a.comma == b.comma == []
    ensures TextOf(Array([], [a, b], [])) == Ascii("[") + TextOf(a.tree) + Ascii(",") + TextOf(b.tree) + Ascii("]")
  {
    assert [a, b][1..] == [b] && [b][1..] == [];
    assert RestText([b]) == Ascii(",") + TextOf(b.tree);
  }

  /** The braces and commas of objects. */
  lemma ObjectParts(a: Entry, b: Entry)
    requires b.comma == []
    ensures TextOf(Object([], [a, b], [])) == Ascii("{") + EntryText(a) + Ascii(",") + EntryText(b) + Ascii("}")
  {
    hide EntryText;
    assert [a, b][1..] == [b];
    MoreParts(b);
    ObjectText([a, b]);
  }

  lemma ObjectText(ms: seq<Entry>)
    ensures TextOf(Object([], ms, [])) == [123] + (EntriesText(ms) + [125])
  {
    hide EntriesText;
    assert EntriesText(ms) + ([] + [125]) == EntriesText(ms) + [125];
  }

  /** The quotes and colons of members. */
  lemma EntryParts(e: Entry)
    requires e.quote == e.colon == []
    ensures EntryText(e) == Ascii("\"") + AllWritten(e.key) + Ascii("\":") + TextOf(e.tree)
  {
    hide AllWritten, TextOf;
  }

  lemma MoreParts(b: Entry)
    requires b.comma == []
    ensures MoreText([b]) == Ascii(",") + EntryText(b)
  {
    hide EntryText;
    assert [b][1..] == [];
  }

  /** How the items of a string are written. */
  lemma StringSpecimens()
    ensures Written(Raw(107)) == Ascii("k") && Written(Short(110)) == Ascii("\\n")
    ensures Written(Unicode([48, 48, 101, 57])) == Ascii("\\u00e9")
    ensures Written(Pair([100, 56, 51, 100], [100, 101, 48, 48])) == Ascii("\\ud83d\\ude00")
  {
  }

  // ----- code points -----

  lemma Div64(q: nat, r: nat)
    requires r < 64
    ensures (64 * q + r) / 64 == q && (64 * q + r) % 64 == r
  {
  }

  /** UTF-8 in the form of section 3 of RFC 3629: a lead byte, and tail bytes of six bits each. */
  lemma Utf8Form(u: nat, a: nat, b: nat, c: nat, d: nat)
    requires u == 0x40000 * a + 0x1000 * b + 0x40 * c + d && u <= 0x10ffff && b < 0x40 && c < 0x40 && d < 0x40
    ensures u <= 0x7f ==> Utf8(u) == [u]
    ensures 0x80 <= u <= 0x7ff ==> Utf8(u) == [0xc0 + c, 0x80 + d]
    ensures 0x800 <= u <= 0xffff ==> Utf8(u) == [0xe0 + b, 0x80 + c, 0x80 + d]
    ensures 0x1_0000 <= u ==> Utf8(u) == [0xf0 + a, 0x80 + b, 0x80 + c, 0x80 + d]
  {
    Div64(0x1000 * a + 0x40 * b + c, d);
    Div64(0x40 * a + b, c);
    Div64(a, b);
    SixBits(u);
  }

  /** Four hexadecimal digits. */
  function Quad(x: nat): Text
    requires x < 0x1_0000
  {
    [HexDigit(x / 0x1000), HexDigit(x / 0x100 % 0x10), HexDigit(x / 0x10 % 0x10), HexDigit(x % 0x10)]
  }

  lemma QuadHex(x: nat)
    requires x < 0x1_0000
    ensures |Quad(x)| == 4 && Hex(Quad(x), 0, 4) == x
  {
    var q := Quad(x);
    assert Hex(q, 0, 0) == 0;
    assert Hex(q, 0, 1) == x / 0x1000;
    assert Hex(q, 0, 2) == x / 0x100;
    assert Hex(q, 0, 3) == x / 0x10;
  }

  /** The halves of a code point beyond the first plane (section 7 of RFC 8259). */
  function High(u: nat): nat
    requires 0x1_0000 <= u <= 0x10ffff
  {
    0xd800 + (u - 0x1_0000) / 0x400
  }

  function Low(u: nat): nat
    requires 0x1_0000 <= u <= 0x10ffff
  {
    0xdc00 + (u - 0x1_0000) % 0x400
  }

  /** A pair of escapes is the code point whose halves its digits are. */
  lemma PairHalves(d: Text, e: Text)
    requires IsItem(Pair(d, e))
    ensures var u := PointOf(Pair(d, e)); 0x1_0000 <= u <= 0x10ffff && Hex(d, 0, 4) == High(u) && Hex(e, 0, 4) == Low(u)
  {
    hide Hex;
  }

  /** Every code point but the surrogates can be written with escapes, and is read as its UTF-8 encoding. */
  lemma EveryPoint(u: nat)
    requires u <= 0x10ffff && !(0xd800 <= u <= 0xdfff)
    ensures var i := if u < 0x1_0000 then Unicode(Quad(u)) else Pair(Quad(High(u)), Quad(Low(u)));
      IsItem(i) && Meaning(i) == Utf8(u)
  {
    hide Hex, Quad, Utf8;
    if u < 0x1_0000 {
      QuadHex(u);
    } else {
      QuadHex(High(u));
      QuadHex(Low(u));
    }
  }

  /** The order of std::string: at the first place where two texts differ the bytes decide, and a prefix comes first. */
  lemma {:induction false} LessMeans(p: Text, x: Byte, a: Text, y: Byte, b: Text)
    ensures x < y ==> Less(p + ([x] + a), p + ([y] + b)) && !Less(p + ([y] + b), p + ([x] + a))
    ensures Less(p, p + ([x] + a))
  {
    if p != [] {
      var s, t := p + ([x] + a), p + ([y] + b);
      assert s[1..] == p[1..] + ([x] + a) && t[1..] == p[1..] + ([y] + b);
      LessMeans(p[1..], x, a, y, b);
    }
  }
}
