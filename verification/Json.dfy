/** JSON values as picojson holds them, and their serialization. */
module Json {
  import opened Bytes

  type Text = seq<Byte>

  /** An object is its members in the order of std::map; a number is the text it was read from. */
  datatype Value =
    | Null | Bool(b: bool) | Num(text: Text) | Str(s: Text) | Arr(items: seq<Value>) | Obj(members: seq<Member>)
  datatype Member = Member(key: Text, val: Value)

  /** std::string's order. */
  predicate Less(a: Text, b: Text) {
    b != [] && (a == [] || a[0] < b[0] || (a[0] == b[0] && Less(a[1..], b[1..])))
  }

  lemma {:induction false} LessTrans(a: Text, b: Text, c: Text)
    requires Less(a, b) && Less(b, c)
    ensures Less(a, c)
  {
    if a != [] && a[0] == b[0] && b[0] == c[0] { LessTrans(a[1..], b[1..], c[1..]); }
  }

  lemma {:induction false} LessTotal(a: Text, b: Text)
    ensures Less(a, b) || a == b || Less(b, a)
    ensures !(Less(a, b) && Less(b, a)) && !Less(a, a)
  {
    if a != [] && b != [] && a[0] == b[0] {
      LessTotal(a[1..], b[1..]);
      assert a == [a[0]] + a[1..] && b == [b[0]] + b[1..];
    }
    if a != [] { LessTotal(a[1..], a[1..]); }
  }

  predicate Sorted(ms: seq<Member>) {
    forall i, j {:trigger ms[i], ms[j]} :: 0 <= i < j < |ms| ==> Less(ms[i].key, ms[j].key)
  }

  /** No numbers, and objects in order. */
  predicate Plain(v: Value) {
    match v
    case Num(_) => false
    case Arr(items) => forall i {:trigger items[i]} :: 0 <= i < |items| ==> Plain(items[i])
    case Obj(ms) => Sorted(ms) && forall i {:trigger ms[i]} :: 0 <= i < |ms| ==> Plain(ms[i].val)
    case _ => true
  }

  // ----- strings -----

  function HexDigit(d: nat): Byte
    requires d < 16
  {
    if d < 10 then 48 + d else 87 + d
  }

  /** How one character is written inside quotes. */
  function Escape(c: Byte): Text {
    if c == 34 then [92, 34]
    else if c == 92 then [92, 92]
    else if c == 47 then [92, 47]
    else if c == 8 then [92, 98]
    else if c == 12 then [92, 102]
    else if c == 10 then [92, 110]
    else if c == 13 then [92, 114]
    else if c == 9 then [92, 116]
    else if c < 32 || c == 127 then [92, 117, 48, 48, HexDigit(c / 16), HexDigit(c % 16)]
    else [c]
  }

  /** The characters from the i-th on, escaped. */
  function EscapeFrom(s: Text, i: nat): Text
    requires i <= |s|
    decreases |s| - i
  {
    if i == |s| then [] else Escape(s[i]) + EscapeFrom(s, i + 1)
  }

  function Quote(s: Text): Text {
    [34] + EscapeFrom(s, 0) + [34]
  }

  // ----- values -----

  const NULL: Text := [110, 117, 108, 108]
  const TRUE: Text := [116, 114, 117, 101]
  const FALSE: Text := [102, 97, 108, 115, 101]

  function Write(v: Value): Text {
    match v
    case Null => NULL
    case Bool(b) => if b then TRUE else FALSE
    case Num(t) => t
    case Str(s) => Quote(s)
    case Arr(items) => [91] + ItemsFrom(items, 0) + [93]
    case Obj(ms) => [123] + MembersFrom(ms, 0) + [125]
  }

  /** The items from the i-th on, with a comma before all but the first. */
  function ItemsFrom(items: seq<Value>, i: nat): Text
    requires i <= |items|
    decreases items, |items| - i
  {
    if i == |items| then []
    else (if i == 0 then [] else [44]) + Write(items[i]) + ItemsFrom(items, i + 1)
  }

  function WriteMember(m: Member): Text {
    Quote(m.key) + [58] + Write(m.val)
  }

  function MembersFrom(ms: seq<Member>, i: nat): Text
    requires i <= |ms|
    decreases ms, |ms| - i
  {
    if i == |ms| then []
    else (if i == 0 then [] else [44]) + WriteMember(ms[i]) + MembersFrom(ms, i + 1)
  }

  // ----- writing -----

  /** The switch on one character. */
  method SerializeChar(c: Byte) returns (e: Text)
    ensures e == Escape(c)
  {
    match c {
      case 34 => e := [92, 34];
      case 92 => e := [92, 92];
      case 47 => e := [92, 47];
      case 8 => e := [92, 98];
      case 12 => e := [92, 102];
      case 10 => e := [92, 110];
      case 13 => e := [92, 114];
      case 9 => e := [92, 116];
      case _ =>
        if c < 32 || c == 127 {
          e := [92, 117, 48, 48, HexDigit(c / 16), HexDigit(c % 16)];
        } else {
          e := [c];
        }
    }
  }

  /** serialize_str(), appending to out. */
  method SerializeStr(s: Text, out: Text) returns (out': Text)
    ensures out' == out + Quote(s)
  {
    hide Escape;
    out' := out + [34];
    for i := 0 to |s|
      invariant out' + EscapeFrom(s, i) == out + [34] + EscapeFrom(s, 0)
    {
      var e := SerializeChar(s[i]);
      assert out' + (e + EscapeFrom(s, i + 1)) == out' + e + EscapeFrom(s, i + 1);
      out' := out' + e;
    }
    assert out' + [] == out' == out + [34] + EscapeFrom(s, 0);
    out' := out' + [34];
    assert out' == out + ([34] + EscapeFrom(s, 0) + [34]);
  }

  /** value::serialize(), appending to out. */
  method Serialize(v: Value, out: Text) returns (out': Text)
    ensures out' == out + Write(v)
    decreases v
  {
    match v {
      case Null => out' := out + NULL;
      case Bool(b) => out' := out + if b then TRUE else FALSE;
      case Num(t) => out' := out + t;
      case Str(s) => out' := SerializeStr(s, out);
      case Arr(items) => out' := SerializeArray(items, out);
      case Obj(ms) => out' := SerializeObject(ms, out);
    }
  }

  method SerializeArray(items: seq<Value>, out: Text) returns (out': Text)
    ensures out' == out + ([91] + ItemsFrom(items, 0) + [93])
    decreases items
  {
    hide Write;
    out' := out + [91];
    for i := 0 to |items|
      invariant out' + ItemsFrom(items, i) == out + [91] + ItemsFrom(items, 0)
    {
      ghost var out0, comma := out', if i == 0 then [] else [44];
      if i != 0 { out' := out' + [44]; }
      assert out' == out0 + comma;
      out' := Serialize(items[i], out');
      assert out0 + (comma + Write(items[i]) + ItemsFrom(items, i + 1)) ==
        out0 + comma + Write(items[i]) + ItemsFrom(items, i + 1);
    }
    assert out' + [] == out' == out + [91] + ItemsFrom(items, 0);
    out' := out' + [93];
  }

  method SerializeObject(ms: seq<Member>, out: Text) returns (out': Text)
    ensures out' == out + ([123] + MembersFrom(ms, 0) + [125])
    decreases ms
  {
    hide Write, Quote;
    out' := out + [123];
    for i := 0 to |ms|
      invariant out' + MembersFrom(ms, i) == out + [123] + MembersFrom(ms, 0)
    {
      ghost var out0, comma := out', if i == 0 then [] else [44];
      if i != 0 { out' := out' + [44]; }
      assert out' == out0 + comma;
      out' := SerializeStr(ms[i].key, out');
      out' := out' + [58];
      out' := Serialize(ms[i].val, out');
      assert out' == out0 + comma + WriteMember(ms[i]);
      assert out0 + (comma + WriteMember(ms[i]) + MembersFrom(ms, i + 1)) ==
        out0 + comma + WriteMember(ms[i]) + MembersFrom(ms, i + 1);
    }
    assert out' + [] == out' == out + [123] + MembersFrom(ms, 0);
    out' := out' + [125];
  }
}
