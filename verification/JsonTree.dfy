/** The grammar of JSON texts (RFC 8259), what each text stands for, and how it is read from left to right. */
module JsonTree {
  import opened Bytes
  import opened Json
  import opened JsonInput
  import opened JsonParse

  // ----- the grammar -----

  /** A text as the grammar builds it; space is the white space before it. */
  datatype Tree =
    | Word(space: Text, word: Value)
    | Number(space: Text, digits: Text)
    | Chars(space: Text, items: seq<Item>)
    | Array(space: Text, elems: seq<Elem>, close: Text)
    | Object(space: Text, entries: seq<Entry>, close: Text)

  /** An element, and the white space before the comma in front of it; none in front of the first. */
  datatype Elem = Elem(comma: Text, tree: Tree)

  datatype Entry = Entry(comma: Text, quote: Text, key: seq<Item>, colon: Text, tree: Tree)

  predicate Spaces(t: Text) {
    forall i {:trigger t[i]} :: 0 <= i < |t| ==> IsSpace(t[i])
  }

  predicate IsNumberChar(c: Byte) {
    48 <= c <= 57 || c in {43, 45, 46, 101, 69}
  }

  predicate StartsNumber(c: Byte) {
    48 <= c <= 57 || c == 45
  }

  predicate NumberChars(t: Text) {
    forall i {:trigger t[i]} :: 0 <= i < |t| ==> IsNumberChar(t[i])
  }

  /** num says which texts strtod() takes whole. */
  predicate IsTree(t: Tree, num: Text -> bool) {
    && Spaces(t.space)
    && match t
       case Word(_, v) => v.Null? || v.Bool?
       case Number(_, d) => d != [] && StartsNumber(d[0]) && NumberChars(d) && num(d)
       case Chars(_, items) => AllItems(items)
       case Array(_, es, close) => Spaces(close) && (es != [] ==> es[0].comma == []) && AreElems(es, num)
       case Object(_, ms, close) => Spaces(close) && (ms != [] ==> ms[0].comma == []) && AreEntries(ms, num)
  }

  predicate AreElems(es: seq<Elem>, num: Text -> bool) {
    forall i {:trigger es[i]} :: 0 <= i < |es| ==> Spaces(es[i].comma) && IsTree(es[i].tree, num)
  }

  predicate IsEntry(e: Entry, num: Text -> bool) {
    Spaces(e.comma) && Spaces(e.quote) && AllItems(e.key) && Spaces(e.colon) && IsTree(e.tree, num)
  }

  predicate AreEntries(ms: seq<Entry>, num: Text -> bool) {
    forall i {:trigger ms[i]} :: 0 <= i < |ms| ==> IsEntry(ms[i], num)
  }

  // ----- how it is written -----

  function TextOf(t: Tree): Text {
    match t
    case Word(w, v) => w + if v.Null? then NULL else if v == Bool(true) then TRUE else FALSE
    case Number(w, d) => w + d
    case Chars(w, items) => w + StringText(items)
    case Array(w, es, close) => w + ([91] + (ElemsText(es) + (close + [93])))
    case Object(w, ms, close) => w + ([123] + (EntriesText(ms) + (close + [125])))
  }

  function StringText(items: seq<Item>): Text {
    [34] + (AllWritten(items) + [34])
  }

  function ElemsText(es: seq<Elem>): Text {
    if es == [] then [] else TextOf(es[0].tree) + RestText(es[1..])
  }

  /** The elements after the first. */
  function RestText(es: seq<Elem>): Text {
    if es == [] then [] else es[0].comma + ([44] + (TextOf(es[0].tree) + RestText(es[1..])))
  }

  function EntryText(e: Entry): Text {
    e.quote + (StringText(e.key) + (e.colon + ([58] + TextOf(e.tree))))
  }

  function EntriesText(ms: seq<Entry>): Text {
    if ms == [] then [] else EntryText(ms[0]) + MoreText(ms[1..])
  }

  /** The members after the first. */
  function MoreText(ms: seq<Entry>): Text {
    if ms == [] then [] else ms[0].comma + ([44] + (EntryText(ms[0]) + MoreText(ms[1..])))
  }

  /** Tree t is what stands at p; a number is taken as far as it goes. */
  predicate Reads(s: Text, p: nat, t: Tree, num: Text -> bool) {
    && IsTree(t, num) && At(s, p, TextOf(t))
    && (t.Number? ==> p + |TextOf(t)| >= |s| || !IsNumberChar(s[p + |TextOf(t)|]))
  }

  // ----- what it stands for -----

  /** object[key] = val, in the order of std::map. */
  function Insert(ms: seq<Member>, key: Text, val: Value): seq<Member> {
    if ms == [] then [Member(key, val)]
    else if Less(key, ms[0].key) then [Member(key, val)] + ms
    else if ms[0].key == key then [Member(key, val)] + ms[1..]
    else [ms[0]] + Insert(ms[1..], key, val)
  }

  function Denotes(t: Tree, num: Text -> bool): Value
    requires IsTree(t, num)
  {
    match t
    case Word(_, v) => v
    case Number(_, d) => Num(d)
    case Chars(_, items) => Str(AllMeaning(items))
    case Array(_, es, _) => Arr(Values(es, num))
    case Object(_, ms, _) => Obj(Members(ms, num))
  }

  function Values(es: seq<Elem>, num: Text -> bool): (vs: seq<Value>)
    requires AreElems(es, num)
  {
    if es == [] then [] else Values(es[..|es| - 1], num) + [Denotes(es[|es| - 1].tree, num)]
  }

  /** Of members with the same key the last one counts. */
  function Members(ms: seq<Entry>, num: Text -> bool): seq<Member>
    requires AreEntries(ms, num)
  {
    if ms == [] then []
    else
      var e := ms[|ms| - 1];
      assert IsEntry(e, num);
      Insert(Members(ms[..|ms| - 1], num), AllMeaning(e.key), Denotes(e.tree, num))
  }

  // ----- reading from left to right -----

  /** Something read, and where it ends. */
  datatype Found<T> = Found(what: T, end: nat)

  datatype Rest<T> = Rest(parts: seq<T>, close: Text, end: nat)

  /** The string whose opening quote stands before p. */
  ghost function StringAt(s: Text, p: nat): (r: Option<Found<seq<Item>>>)
    ensures r.Some? ==> p < r.value.end <= |s|
  {
    if exists items :: Quoted(s, p, items) then
      var items :| Quoted(s, p, items);
      QuotedEnd(s, p, items);
      Some(Found(items, p + |AllWritten(items)| + 1))
    else None
  }

  lemma QuotedEnd(s: Text, p: nat, items: seq<Item>)
    requires Quoted(s, p, items)
    ensures p < p + |AllWritten(items)| + 1 <= |s|
  {
    hide AllWritten;
    AtIndex(s, p, AllWritten(items) + [34], |AllWritten(items)|);
  }

  function NumberEnd(s: Text, p: nat): (e: nat)
    requires p <= |s|
    ensures p <= e <= |s| && (e < |s| ==> !IsNumberChar(s[e]))
    decreases |s| - p
  {
    if p < |s| && IsNumberChar(s[p]) then NumberEnd(s, p + 1) else p
  }

  ghost function TreeAt(s: Text, p: nat, num: Text -> bool): (r: Option<Found<Tree>>)
    requires p <= |s|
    ensures r.Some? ==> p < r.value.end <= |s|
    decreases |s| - p, 2
  {
    var q := SkipSpace(s, p);
    var w := s[p..q];
    if q == |s| then None
    else if s[q] == 110 then if At(s, q, NULL) then Some(Found(Word(w, Null), q + 4)) else None
    else if s[q] == 102 then if At(s, q, FALSE) then Some(Found(Word(w, Bool(false)), q + 5)) else None
    else if s[q] == 116 then if At(s, q, TRUE) then Some(Found(Word(w, Bool(true)), q + 4)) else None
    else if s[q] == 34 then
      var f := StringAt(s, q + 1);
      if f.None? then None else Some(Found(Chars(w, f.value.what), f.value.end))
    else if s[q] == 91 then ArrayAt(s, q + 1, w, num)
    else if s[q] == 123 then ObjectAt(s, q + 1, w, num)
    else if StartsNumber(s[q])
      && num(s[q..NumberEnd(s, q)]) then Some(Found(Number(w, s[q..NumberEnd(s, q)]), NumberEnd(s, q)))
    else None
  }

  /** After the opening bracket. */
  ghost function ArrayAt(s: Text, p: nat, w: Text, num: Text -> bool): (r: Option<Found<Tree>>)
    requires p <= |s|
    ensures r.Some? ==> p < r.value.end <= |s|
    decreases |s| - p, 3
  {
    var q := SkipSpace(s, p);
    if q < |s| && s[q] == 93 then Some(Found(Array(w, [], s[p..q]), q + 1))
    else
      var t := TreeAt(s, p, num);
      if t.None? then None
      else
        var r := RestAt(s, t.value.end, num);
        if r.None? then None
          else Some(Found(Array(w, [Elem([], t.value.what)] + r.value.parts, r.value.close), r.value.end))
  }

  /** After an element: commas and elements, up to the closing bracket. */
  ghost function RestAt(s: Text, p: nat, num: Text -> bool): (r: Option<Rest<Elem>>)
    requires p <= |s|
    ensures r.Some? ==> p < r.value.end <= |s|
    decreases |s| - p, 0
  {
    var q := SkipSpace(s, p);
    if q == |s| then None
    else if s[q] == 44 then
      var t := TreeAt(s, q + 1, num);
      if t.None? then None
      else
        var r := RestAt(s, t.value.end, num);
        if r.None? then None else Some(r.value.(parts := [Elem(s[p..q], t.value.what)] + r.value.parts))
    else if s[q] == 93 then Some(Rest([], s[p..q], q + 1))
    else None
  }

  /** A member; its place after a comma is not yet known. */
  ghost function EntryAt(s: Text, p: nat, comma: Text, num: Text -> bool): (r: Option<Found<Entry>>)
    requires p <= |s|
    ensures r.Some? ==> p < r.value.end <= |s|
    decreases |s| - p, 1
  {
    var q := SkipSpace(s, p);
    if q == |s| || s[q] != 34 then None
    else
      var key := StringAt(s, q + 1);
      if key.None? then None
      else
        var c := SkipSpace(s, key.value.end);
        if c == |s| || s[c] != 58 then None
        else
          var t := TreeAt(s, c + 1, num);
          if t.None? then None
          else Some(Found(Entry(comma, s[p..q], key.value.what, s[key.value.end..c], t.value.what), t.value.end))
  }

  /** After the opening brace. */
  ghost function ObjectAt(s: Text, p: nat, w: Text, num: Text -> bool): (r: Option<Found<Tree>>)
    requires p <= |s|
    ensures r.Some? ==> p < r.value.end <= |s|
    decreases |s| - p, 3
  {
    var q := SkipSpace(s, p);
    if q < |s| && s[q] == 125 then Some(Found(Object(w, [], s[p..q]), q + 1))
    else
      var e := EntryAt(s, p, [], num);
      if e.None? then None
      else
        var r := MoreAt(s, e.value.end, num);
        if r.None? then None else Some(Found(Object(w, [e.value.what] + r.value.parts, r.value.close), r.value.end))
  }

  ghost function MoreAt(s: Text, p: nat, num: Text -> bool): (r: Option<Rest<Entry>>)
    requires p <= |s|
    ensures r.Some? ==> p < r.value.end <= |s|
    decreases |s| - p, 0
  {
    var q := SkipSpace(s, p);
    if q == |s| then None
    else if s[q] == 44 then
      var e := EntryAt(s, q + 1, s[p..q], num);
      if e.None? then None
      else
        var r := MoreAt(s, e.value.end, num);
        if r.None? then None else Some(r.value.(parts := [e.value.what] + r.value.parts))
    else if s[q] == 125 then Some(Rest([], s[p..q], q + 1))
    else None
  }
}
