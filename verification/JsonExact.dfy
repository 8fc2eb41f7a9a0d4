/** Reading from left to right finds exactly the texts of the grammar, each in one way. */
module JsonExact {
  import opened Bytes
  import opened Json
  import opened JsonInput
  import opened JsonParse
  import opened JsonTree

  lemma AtJoin(s: Text, p: nat, a: Text, b: Text)
    requires At(s, p, a) && At(s, p + |a|, b)
    ensures At(s, p, a + b)
  {
    assert s[p..][..|a|] == a && s[p + |a|..][..|b|] == b;
    assert s[p..][..|a + b|] == a + b;
  }

  lemma AtRange(s: Text, p: nat, q: nat)
    requires p <= q <= |s|
    ensures At(s, p, s[p..q]) && |s[p..q]| == q - p
  {
    assert s[p..][..q - p] == s[p..q];
  }

  lemma AtIs(s: Text, p: nat, a: Text)
    requires At(s, p, a)
    ensures p + |a| <= |s| && s[p..p + |a|] == a
  {
    assert s[p..][..|a|] == s[p..p + |a|];
  }

  lemma AtOne(s: Text, p: nat, c: Byte)
    ensures At(s, p, [c]) <==> p < |s| && s[p] == c
  {
    if At(s, p, [c]) { AtIndex(s, p, [c], 0); }
    if p < |s| && s[p] == c { assert s[p..][..1] == [c]; }
  }

  // ----- white space and numbers -----

  /** White space up to something else is skipped exactly. */
  lemma {:induction false} SkipIs(s: Text, p: nat, w: Text)
    requires At(s, p, w) && Spaces(w) && (p + |w| == |s| || (p + |w| < |s| && !IsSpace(s[p + |w|])))
    ensures SkipSpace(s, p) == p + |w|
    decreases |w|
  {
    if w != [] {
      AtIndex(s, p, w, 0);
      assert w == [w[0]] + w[1..];
      AtSplit(s, p, [w[0]], w[1..]);
      SkipIs(s, p + 1, w[1..]);
    }
  }

  lemma {:induction false} SkipSpaces(s: Text, p: nat)
    requires p <= |s|
    ensures Spaces(s[p..SkipSpace(s, p)])
    decreases |s| - p
  {
    if p < |s| && IsSpace(s[p]) {
      SkipSpaces(s, p + 1);
      assert s[p..SkipSpace(s, p)] == [s[p]] + s[p + 1..SkipSpace(s, p)];
    }
  }

  lemma {:induction false} NumberIs(s: Text, p: nat, d: Text)
    requires At(s, p, d) && NumberChars(d) && (p + |d| == |s| || (p + |d| < |s| && !IsNumberChar(s[p + |d|])))
    ensures NumberEnd(s, p) == p + |d|
    decreases |d|
  {
    if d != [] {
      AtIndex(s, p, d, 0);
      assert d == [d[0]] + d[1..];
      AtSplit(s, p, [d[0]], d[1..]);
      NumberIs(s, p + 1, d[1..]);
    }
  }

  lemma {:induction false} NumberRun(s: Text, p: nat)
    requires p <= |s|
    ensures NumberChars(s[p..NumberEnd(s, p)])
    decreases |s| - p
  {
    if p < |s| && IsNumberChar(s[p]) {
      NumberRun(s, p + 1);
      assert s[p..NumberEnd(s, p)] == [s[p]] + s[p + 1..NumberEnd(s, p)];
    }
  }

  /** White space w and then a text that does not start with any. */
  lemma SkipTo(s: Text, p: nat, w: Text, e: Text)
    requires At(s, p, w + e) && Spaces(w) && e != [] && !IsSpace(e[0])
    ensures SkipSpace(s, p) == p + |w| < |s| && s[p..p + |w|] == w && At(s, p + |w|, e) && s[p + |w|] == e[0]
  {
    hide SkipSpace;
    AtSplit(s, p, w, e);
    AtIndex(s, p + |w|, e, 0);
    SkipIs(s, p, w);
    AtIs(s, p, w);
  }

  // ----- strings -----

  lemma StringIs(s: Text, p: nat, items: seq<Item>)
    requires Quoted(s, p, items)
    ensures StringAt(s, p) == Some(Found(items, p + |AllWritten(items)| + 1))
  {
    hide Quoted, AllWritten;
    var other :| Quoted(s, p, other) && StringAt(s, p) == Some(Found(other, p + |AllWritten(other)| + 1));
    QuotedUnique(s, p, items, other);
  }

  lemma StringFound(s: Text, p: nat)
    requires StringAt(s, p).Some?
    ensures var f := StringAt(s, p).value;
      Quoted(s, p, f.what) && AllItems(f.what) && f.end == p + |AllWritten(f.what)| + 1
  {
    hide AllWritten, At, AllItems;
  }

  lemma StringThere(s: Text, p: nat, items: seq<Item>)
    requires AllItems(items) && At(s, p, StringText(items))
    ensures p < |s| && s[p] == 34 && StringAt(s, p + 1) == Some(Found(items, p + |StringText(items)|))
  {
    hide AllWritten, StringAt, AllItems, At;
    AtSplit(s, p, [34], AllWritten(items) + [34]);
    AtOne(s, p, 34);
    assert Quoted(s, p + 1, items);
    StringIs(s, p + 1, items);
  }

  // ----- every text of the grammar is found -----

  /** What follows an element goes on with no character of a number. */
  lemma AfterElem(es: seq<Elem>, close: Text, num: Text -> bool)
    requires AreElems(es, num) && Spaces(close)
    ensures var e := RestText(es) + (close + [93]); e != [] && !IsNumberChar(e[0])
  {
    hide TextOf, IsTree;
    var e := RestText(es) + (close + [93]);
    if es == [] {
      assert e[0] == (close + [93])[0];
    } else {
      assert Spaces(es[0].comma);
      assert e[0] == (es[0].comma + [44])[0];
    }
  }

  lemma AfterEntry(ms: seq<Entry>, close: Text, num: Text -> bool)
    requires AreEntries(ms, num) && Spaces(close)
    ensures var e := MoreText(ms) + (close + [125]); e != [] && !IsNumberChar(e[0])
  {
    hide EntryText, IsTree;
    var e := MoreText(ms) + (close + [125]);
    if ms == [] {
      assert e[0] == (close + [125])[0];
    } else {
      assert IsEntry(ms[0], num);
      assert e[0] == (ms[0].comma + [44])[0];
    }
  }

  /** A tree that something other than a number follows is what is read. */
  lemma ReadsBefore(s: Text, p: nat, t: Tree, e: Text, num: Text -> bool)
    requires IsTree(t, num) && At(s, p, TextOf(t) + e) && e != [] && !IsNumberChar(e[0])
    ensures Reads(s, p, t, num) && At(s, p + |TextOf(t)|, e)
  {
    hide TextOf, IsTree;
    AtSplit(s, p, TextOf(t), e);
    AtIndex(s, p + |TextOf(t)|, e, 0);
  }

  /** The character a text starts with after its white space. */
  lemma TreeStarts(t: Tree, num: Text -> bool)
    requires IsTree(t, num)
    ensures exists e: Text :: TextOf(t) == t.space + e && e != [] && !IsSpace(e[0]) && e[0] != 93 && e[0] != 125
  {
    hide AllItems, AreElems, AreEntries, ElemsText, EntriesText, AllWritten;
    var e: Text :=
      match t
      case Word(w, v) => if v.Null? then NULL else if v == Bool(true) then TRUE else FALSE
      case Number(w, d) => d
      case Chars(w, items) => StringText(items)
      case Array(w, es, close) => [91] + (ElemsText(es) + (close + [93]))
      case Object(w, ms, close) => [123] + (EntriesText(ms) + (close + [125]));
    assert TextOf(t) == t.space + e;
    assert e != [] && !IsSpace(e[0]) && e[0] != 93 && e[0] != 125;
  }

  lemma {:induction false} TreeFound(s: Text, p: nat, t: Tree, num: Text -> bool)
    requires Reads(s, p, t, num)
    ensures p <= |s| && TreeAt(s, p, num) == Some(Found(t, p + |TextOf(t)|))
    decreases t
  {
    hide Reads, TextOf, TreeAt, ArrayAt, ObjectAt, At, AreElems, AreEntries, ElemsText, EntriesText;
    match t
    case Word(w, v) => WordFound(s, p, w, v, num);
    case Number(w, d) => NumberFound(s, p, w, d, num);
    case Chars(w, items) => CharsFound(s, p, w, items, num);
    case Array(w, es, close) =>
      ArrayStarts(s, p, w, es, close, num);
      ArrayFound(s, p + |w| + 1, w, es, close, num);
    case Object(w, ms, close) =>
      ObjectStarts(s, p, w, ms, close, num);
      ObjectFound(s, p + |w| + 1, w, ms, close, num);
  }

  lemma WordFound(s: Text, p: nat, w: Text, v: Value, num: Text -> bool)
    requires Reads(s, p, Word(w, v), num)
    ensures p <= |s| && TreeAt(s, p, num) == Some(Found(Word(w, v), p + |TextOf(Word(w, v))|))
  {
    hide At, SkipSpace;
    var e := if v.Null? then NULL else if v == Bool(true) then TRUE else FALSE;
    SkipTo(s, p, w, e);
  }

  lemma NumberFound(s: Text, p: nat, w: Text, d: Text, num: Text -> bool)
    requires Reads(s, p, Number(w, d), num)
    ensures p <= |s| && TreeAt(s, p, num) == Some(Found(Number(w, d), p + |TextOf(Number(w, d))|))
  {
    hide At, SkipSpace, NumberEnd;
    SkipTo(s, p, w, d);
    AtIs(s, p + |w|, d);
    NumberIs(s, p + |w|, d);
  }

  lemma CharsFound(s: Text, p: nat, w: Text, items: seq<Item>, num: Text -> bool)
    requires Reads(s, p, Chars(w, items), num)
    ensures p <= |s| && TreeAt(s, p, num) == Some(Found(Chars(w, items), p + |TextOf(Chars(w, items))|))
  {
    hide At, SkipSpace, StringAt, AllWritten, AllItems;
    SkipTo(s, p, w, StringText(items));
    StringThere(s, p + |w|, items);
  }

  lemma ArrayParts(s: Text, p: nat, w: Text, es: seq<Elem>, close: Text, num: Text -> bool)
    requires Reads(s, p, Array(w, es, close), num)
    ensures AreElems(es, num) && Spaces(w) && Spaces(close) && (es != [] ==> es[0].comma == [])
    ensures At(s, p, w + ([91] + (ElemsText(es) + (close + [93]))))
    ensures |TextOf(Array(w, es, close))| == |w| + 1 + |ElemsText(es)| + |close| + 1
  {
    hide At, ElemsText, Spaces, AreElems;
  }

  lemma ObjectParts(s: Text, p: nat, w: Text, ms: seq<Entry>, close: Text, num: Text -> bool)
    requires Reads(s, p, Object(w, ms, close), num)
    ensures AreEntries(ms, num) && Spaces(w) && Spaces(close) && (ms != [] ==> ms[0].comma == [])
    ensures At(s, p, w + ([123] + (EntriesText(ms) + (close + [125]))))
    ensures |TextOf(Object(w, ms, close))| == |w| + 1 + |EntriesText(ms)| + |close| + 1
  {
    hide At, EntriesText, Spaces, AreEntries;
  }

  /** At a bracket or a brace the rest decides. */
  lemma TreeOpens(s: Text, p: nat, num: Text -> bool)
    requires p <= |s| && SkipSpace(s, p) < |s|
    ensures var q := SkipSpace(s, p);
      && (s[q] == 91 ==> TreeAt(s, p, num) == ArrayAt(s, q + 1, s[p..q], num))
      && (s[q] == 123 ==> TreeAt(s, p, num) == ObjectAt(s, q + 1, s[p..q], num))
  {
    hide SkipSpace, ArrayAt, ObjectAt, StringAt, At;
  }

  lemma ArrayStarts(s: Text, p: nat, w: Text, es: seq<Elem>, close: Text, num: Text -> bool)
    requires Reads(s, p, Array(w, es, close), num)
    ensures p + |w| + 1 <= |s| && TreeAt(s, p, num) == ArrayAt(s, p + |w| + 1, w, num)
    ensures AreElems(es, num) && Spaces(close) && (es != [] ==> es[0].comma == [])
    ensures At(s, p + |w| + 1, ElemsText(es) + (close + [93]))
    ensures |TextOf(Array(w, es, close))| == |w| + 1 + |ElemsText(es)| + |close| + 1
  {
    hide Reads, TextOf, At, SkipSpace, ElemsText, AreElems, TreeAt, ArrayAt, Spaces;
    ArrayParts(s, p, w, es, close, num);
    var e := ElemsText(es) + (close + [93]);
    SkipTo(s, p, w, [91] + e);
    AtSplit(s, p + |w|, [91], e);
    AtOne(s, p + |w|, 91);
    TreeOpens(s, p, num);
  }

  lemma ObjectStarts(s: Text, p: nat, w: Text, ms: seq<Entry>, close: Text, num: Text -> bool)
    requires Reads(s, p, Object(w, ms, close), num)
    ensures p + |w| + 1 <= |s| && TreeAt(s, p, num) == ObjectAt(s, p + |w| + 1, w, num)
    ensures AreEntries(ms, num) && Spaces(close) && (ms != [] ==> ms[0].comma == [])
    ensures At(s, p + |w| + 1, EntriesText(ms) + (close + [125]))
    ensures |TextOf(Object(w, ms, close))| == |w| + 1 + |EntriesText(ms)| + |close| + 1
  {
    hide Reads, TextOf, At, SkipSpace, EntriesText, AreEntries, TreeAt, ObjectAt, Spaces;
    ObjectParts(s, p, w, ms, close, num);
    var e := EntriesText(ms) + (close + [125]);
    SkipTo(s, p, w, [123] + e);
    AtSplit(s, p + |w|, [123], e);
    AtOne(s, p + |w|, 123);
    TreeOpens(s, p, num);
  }

  /** Where a tree stands, no closing bracket or brace does. */
  lemma NotClosing(s: Text, p: nat, t: Tree, num: Text -> bool)
    requires IsTree(t, num) && At(s, p, TextOf(t))
    ensures p <= |s| && SkipSpace(s, p) < |s| && s[SkipSpace(s, p)] != 93 && s[SkipSpace(s, p)] != 125
  {
    hide IsTree, SkipSpace, At, TextOf;
    TreeStarts(t, num);
    TreeSpaces(t, num);
    var e: Text :| TextOf(t) == t.space + e && e != [] && !IsSpace(e[0]) && e[0] != 93 && e[0] != 125;
    SkipTo(s, p, t.space, e);
  }

  lemma TreeSpaces(t: Tree, num: Text -> bool)
    requires IsTree(t, num)
    ensures Spaces(t.space)
  {
  }

  lemma ArrayFound(s: Text, p: nat, w: Text, es: seq<Elem>, close: Text, num: Text -> bool)
    requires p <= |s| && AreElems(es, num) && Spaces(close) && (es != [] ==> es[0].comma == [])
    requires At(s, p, ElemsText(es) + (close + [93]))
    ensures ArrayAt(s, p, w, num) == Some(Found(Array(w, es, close), p + |ElemsText(es)| + |close| + 1))
    decreases es
  {
    hide At, SkipSpace, TextOf, RestText, TreeAt, RestAt, IsTree;
    if es == [] {
      assert ElemsText(es) + (close + [93]) == close + [93];
      SkipTo(s, p, close, [93]);
    } else {
      var t, e := es[0].tree, RestText(es[1..]) + (close + [93]);
      assert ElemsText(es) + (close + [93]) == TextOf(t) + e;
      AfterElem(es[1..], close, num);
      ReadsBefore(s, p, t, e, num);
      TreeFound(s, p, t, num);
      NotClosing(s, p, t, num);
      RestFound(s, p + |TextOf(t)|, es[1..], close, num);
      assert es == [Elem([], t)] + es[1..];
    }
  }

  /** A comma, and where it leaves off. */
  lemma CommaThere(s: Text, p: nat, w: Text, e: Text)
    requires At(s, p, w + ([44] + e)) && Spaces(w)
    ensures SkipSpace(s, p) == p + |w| < |s| && s[p + |w|] == 44 && s[p..p + |w|] == w && At(s, p + |w| + 1, e)
  {
    hide At, SkipSpace;
    SkipTo(s, p, w, [44] + e);
    AtSplit(s, p + |w|, [44], e);
  }

  lemma RestIs(es: seq<Elem>, e: Text)
    requires es != []
    ensures RestText(es) + e == es[0].comma + ([44] + (TextOf(es[0].tree) + (RestText(es[1..]) + e)))
    ensures |RestText(es)| == |es[0].comma| + 1 + |TextOf(es[0].tree)| + |RestText(es[1..])|
  {
    hide TextOf;
  }

  lemma RestEnds(s: Text, p: nat, close: Text, num: Text -> bool)
    requires p <= |s| && Spaces(close) && At(s, p, close + [93])
    ensures RestAt(s, p, num) == Some(Rest([], close, p + |close| + 1))
  {
    hide At, SkipSpace, TreeAt;
    SkipTo(s, p, close, [93]);
  }

  lemma RestGoesOn(s: Text, p: nat, w: Text, t: Tree, end: nat, r: Rest<Elem>, num: Text -> bool)
    requires p <= |s| && SkipSpace(s, p) == p + |w| < |s| && s[p + |w|] == 44 && s[p..p + |w|] == w
    requires TreeAt(s, p + |w| + 1, num) == Some(Found(t, end)) && end <= |s| && RestAt(s, end, num) == Some(r)
    ensures RestAt(s, p, num) == Some(r.(parts := [Elem(w, t)] + r.parts))
  {
    hide At, SkipSpace, TreeAt, RestAt;
    RestStep(s, p, num);
  }

  /** One step of reading, at a comma or at the closing bracket. */
  lemma RestStep(s: Text, p: nat, num: Text -> bool)
    requires p <= |s| && SkipSpace(s, p) < |s|
    ensures var q := SkipSpace(s, p);
      && (s[q] == 93 ==> RestAt(s, p, num) == Some(Rest([], s[p..q], q + 1)))
      && (s[q] == 44 && TreeAt(s, q + 1, num).Some? ==>
            var t := TreeAt(s, q + 1, num).value;
            var r := RestAt(s, t.end, num);
            RestAt(s, p, num) ==
              if r.None? then None else Some(r.value.(parts := [Elem(s[p..q], t.what)] + r.value.parts)))
  {
    hide SkipSpace, TreeAt;
  }

  lemma RestFound(s: Text, p: nat, es: seq<Elem>, close: Text, num: Text -> bool)
    requires p <= |s| && AreElems(es, num) && Spaces(close) && At(s, p, RestText(es) + (close + [93]))
    ensures RestAt(s, p, num) == Some(Rest(es, close, p + |RestText(es)| + |close| + 1))
    decreases es
  {
    hide At, SkipSpace, TextOf, TreeAt, RestAt, RestText, IsTree, Spaces;
    if es == [] {
      assert RestText(es) + (close + [93]) == close + [93] && |RestText(es)| == 0 by { NoRest(); }
      RestEnds(s, p, close, num);
    } else {
      var w, t, e := es[0].comma, es[0].tree, RestText(es[1..]) + (close + [93]);
      RestIs(es, close + [93]);
      CommaThere(s, p, w, TextOf(t) + e);
      AfterElem(es[1..], close, num);
      ReadsBefore(s, p + |w| + 1, t, e, num);
      TreeFound(s, p + |w| + 1, t, num);
      var end := p + |w| + 1 + |TextOf(t)|;
      AtIs(s, end, e);
      RestFound(s, end, es[1..], close, num);
      RestGoesOn(s, p, w, t, end, Rest(es[1..], close, end + |RestText(es[1..])| + |close| + 1), num);
      assert es == [Elem(w, t)] + es[1..];
    }
  }

  lemma NoRest()
    ensures RestText([]) == [] && MoreText([]) == []
  {
  }

  /** A member that something other than a number follows. */
  lemma EntryFound(s: Text, p: nat, m: Entry, e: Text, num: Text -> bool)
    requires p <= |s| && IsEntry(m, num) && At(s, p, EntryText(m) + e) && e != [] && !IsNumberChar(e[0])
    ensures EntryAt(s, p, m.comma, num) == Some(Found(m, p + |EntryText(m)|)) && At(s, p + |EntryText(m)|, e)
    ensures SkipSpace(s, p) < |s| && s[SkipSpace(s, p)] == 34
    decreases m, 0
  {
    hide At, SkipSpace, TextOf, TreeAt, IsTree, StringAt, AllWritten, AllItems;
    var k, t := StringText(m.key), TextOf(m.tree);
    assert EntryText(m) + e == m.quote + (k + (m.colon + ([58] + (t + e))));
    SkipTo(s, p, m.quote, k + (m.colon + ([58] + (t + e))));
    var q := p + |m.quote|;
    AtSplit(s, q, k, m.colon + ([58] + (t + e)));
    StringThere(s, q, m.key);
    SkipTo(s, q + |k|, m.colon, [58] + (t + e));
    var c := q + |k| + |m.colon|;
    AtSplit(s, c, [58], t + e);
    ReadsBefore(s, c + 1, m.tree, e, num);
    TreeFound(s, c + 1, m.tree, num);
  }

  lemma ObjectFound(s: Text, p: nat, w: Text, ms: seq<Entry>, close: Text, num: Text -> bool)
    requires p <= |s| && AreEntries(ms, num) && Spaces(close) && (ms != [] ==> ms[0].comma == [])
    requires At(s, p, EntriesText(ms) + (close + [125]))
    ensures ObjectAt(s, p, w, num) == Some(Found(Object(w, ms, close), p + |EntriesText(ms)| + |close| + 1))
    decreases ms
  {
    hide At, SkipSpace, EntryText, MoreText, EntryAt, MoreAt, IsEntry;
    if ms == [] {
      assert EntriesText(ms) + (close + [125]) == close + [125];
      SkipTo(s, p, close, [125]);
    } else {
      var m, e := ms[0], MoreText(ms[1..]) + (close + [125]);
      assert EntriesText(ms) + (close + [125]) == EntryText(m) + e;
      AfterEntry(ms[1..], close, num);
      EntryFound(s, p, m, e, num);
      MoreFound(s, p + |EntryText(m)|, ms[1..], close, num);
      assert ms == [m] + ms[1..];
    }
  }

  lemma MoreIs(ms: seq<Entry>, e: Text)
    requires ms != []
    ensures MoreText(ms) + e == ms[0].comma + ([44] + (EntryText(ms[0]) + (MoreText(ms[1..]) + e)))
    ensures |MoreText(ms)| == |ms[0].comma| + 1 + |EntryText(ms[0])| + |MoreText(ms[1..])|
  {
    hide EntryText;
  }

  lemma MoreEnds(s: Text, p: nat, close: Text, num: Text -> bool)
    requires p <= |s| && Spaces(close) && At(s, p, close + [125])
    ensures MoreAt(s, p, num) == Some(Rest([], close, p + |close| + 1))
  {
    hide At, SkipSpace, EntryAt;
    SkipTo(s, p, close, [125]);
  }

  lemma MoreGoesOn(s: Text, p: nat, m: Entry, end: nat, r: Rest<Entry>, num: Text -> bool)
    requires p <= |s| && SkipSpace(s, p) == p + |m.comma| < |s| && s[p + |m.comma|] == 44
      && s[p..p + |m.comma|] == m.comma
    requires EntryAt(s, p + |m.comma| + 1, m.comma, num) == Some(Found(m, end)) && end <= |s|
      && MoreAt(s, end, num) == Some(r)
    ensures MoreAt(s, p, num) == Some(r.(parts := [m] + r.parts))
  {
    hide At, SkipSpace, EntryAt, MoreAt;
    MoreStep(s, p, num);
  }

  lemma MoreStep(s: Text, p: nat, num: Text -> bool)
    requires p <= |s| && SkipSpace(s, p) < |s|
    ensures var q := SkipSpace(s, p);
      && (s[q] == 125 ==> MoreAt(s, p, num) == Some(Rest([], s[p..q], q + 1)))
      && (s[q] == 44 && EntryAt(s, q + 1, s[p..q], num).Some? ==>
            var m := EntryAt(s, q + 1, s[p..q], num).value;
            var r := MoreAt(s, m.end, num);
            MoreAt(s, p, num) == if r.None? then None else Some(r.value.(parts := [m.what] + r.value.parts)))
  {
    hide SkipSpace, EntryAt;
  }

  lemma MoreFound(s: Text, p: nat, ms: seq<Entry>, close: Text, num: Text -> bool)
    requires p <= |s| && AreEntries(ms, num) && Spaces(close) && At(s, p, MoreText(ms) + (close + [125]))
    ensures MoreAt(s, p, num) == Some(Rest(ms, close, p + |MoreText(ms)| + |close| + 1))
    decreases ms
  {
    hide At, SkipSpace, EntryText, EntryAt, MoreAt, MoreText, IsTree, AllItems, Spaces;
    if ms == [] {
      assert MoreText(ms) + (close + [125]) == close + [125] && |MoreText(ms)| == 0 by { NoRest(); }
      MoreEnds(s, p, close, num);
    } else {
      var m, e := ms[0], MoreText(ms[1..]) + (close + [125]);
      assert IsEntry(m, num);
      MoreIs(ms, close + [125]);
      CommaThere(s, p, m.comma, EntryText(m) + e);
      AfterEntry(ms[1..], close, num);
      EntryFound(s, p + |m.comma| + 1, m, e, num);
      var end := p + |m.comma| + 1 + |EntryText(m)|;
      AtIs(s, end, e);
      MoreFound(s, end, ms[1..], close, num);
      MoreGoesOn(s, p, m, end, Rest(ms[1..], close, end + |MoreText(ms[1..])| + |close| + 1), num);
      assert ms == [m] + ms[1..];
    }
  }

  // ----- what is found is a text of the grammar -----

  /** What was read at p: its text, and the place after it. */
  lemma SkipReads(s: Text, p: nat, e: Text)
    requires p <= |s| && At(s, SkipSpace(s, p), e)
    ensures var w := s[p..SkipSpace(s, p)]; Spaces(w) && At(s, p, w + e) && SkipSpace(s, p) == p + |w|
  {
    hide SkipSpace, At;
    var q := SkipSpace(s, p);
    SkipSpaces(s, p);
    AtRange(s, p, q);
    AtJoin(s, p, s[p..q], e);
  }

  lemma SkipReadsOne(s: Text, p: nat, c: Byte, e: Text)
    requires p <= |s| && SkipSpace(s, p) < |s| && s[SkipSpace(s, p)] == c && At(s, SkipSpace(s, p) + 1, e)
    ensures var w := s[p..SkipSpace(s, p)]; Spaces(w) && At(s, p, w + ([c] + e)) && SkipSpace(s, p) == p + |w|
  {
    hide SkipSpace, At;
    var q := SkipSpace(s, p);
    AtOne(s, q, c);
    AtJoin(s, q, [c], e);
    SkipReads(s, p, [c] + e);
  }

  lemma {:induction false} TreeReads(s: Text, p: nat, num: Text -> bool)
    requires p <= |s| && TreeAt(s, p, num).Some?
    ensures var f := TreeAt(s, p, num).value; Reads(s, p, f.what, num) && f.end == p + |TextOf(f.what)|
    decreases |s| - p, 2
  {
    hide SkipSpace, At, ArrayAt, ObjectAt, StringAt, NumberEnd;
    var q := SkipSpace(s, p);
    var w := s[p..q];
    if s[q] == 110 {
      SkipReads(s, p, NULL);
    } else if s[q] == 102 {
      SkipReads(s, p, FALSE);
    } else if s[q] == 116 {
      SkipReads(s, p, TRUE);
    } else if s[q] == 34 {
      CharsRead(s, p);
    } else if s[q] == 91 {
      ArrayReads(s, q + 1, w, num);
      var t := ArrayAt(s, q + 1, w, num).value.what;
      SkipReadsOne(s, p, 91, ElemsText(t.elems) + (t.close + [93]));
    } else if s[q] == 123 {
      ObjectReads(s, q + 1, w, num);
      var t := ObjectAt(s, q + 1, w, num).value.what;
      SkipReadsOne(s, p, 123, EntriesText(t.entries) + (t.close + [125]));
    } else {
      NumberReads(s, p, num);
    }
  }

  lemma CharsRead(s: Text, p: nat)
    requires p <= |s| && SkipSpace(s, p) < |s| && s[SkipSpace(s, p)] == 34 && StringAt(s, SkipSpace(s, p) + 1).Some?
    ensures var q := SkipSpace(s, p); var f := StringAt(s, q + 1).value;
      && AllItems(f.what) && f.end == q + |StringText(f.what)|
      && Spaces(s[p..q]) && At(s, p, s[p..q] + StringText(f.what)) && At(s, q, StringText(f.what)) && q == p + |s[p..q]|
  {
    hide SkipSpace, At, StringAt, AllWritten, AllItems;
    var q := SkipSpace(s, p);
    StringFound(s, q + 1);
    var f := StringAt(s, q + 1).value;
    QuotedAt(s, q + 1, f.what);
    SkipReadsOne(s, p, 34, AllWritten(f.what) + [34]);
    AtOne(s, q, 34);
    AtJoin(s, q, [34], AllWritten(f.what) + [34]);
  }

  lemma QuotedAt(s: Text, p: nat, items: seq<Item>)
    requires Quoted(s, p, items)
    ensures At(s, p, AllWritten(items) + [34])
  {
  }

  lemma NumberReads(s: Text, p: nat, num: Text -> bool)
    requires p <= |s| && SkipSpace(s, p) < |s| && StartsNumber(s[SkipSpace(s, p)])
    requires num(s[SkipSpace(s, p)..NumberEnd(s, SkipSpace(s, p))])
    ensures var q := SkipSpace(s, p); Reads(s, p, Number(s[p..q], s[q..NumberEnd(s, q)]), num)
    ensures var q := SkipSpace(s, p); NumberEnd(s, q) == p + |s[p..q]| + |s[q..NumberEnd(s, q)]|
  {
    hide SkipSpace, At;
    var q := SkipSpace(s, p);
    var e := NumberEnd(s, q);
    assert e > q;
    NumberRun(s, q);
    AtRange(s, q, e);
    SkipReads(s, p, s[q..e]);
  }

  lemma ArrayReads(s: Text, p: nat, w: Text, num: Text -> bool)
    requires p <= |s| && ArrayAt(s, p, w, num).Some?
    ensures var f := ArrayAt(s, p, w, num).value;
      && f.what.Array? && f.what.space == w && Spaces(f.what.close) && AreElems(f.what.elems, num)
      && (f.what.elems != [] ==> f.what.elems[0].comma == [])
      && At(s, p, ElemsText(f.what.elems) + (f.what.close + [93]))
      && f.end == p + |ElemsText(f.what.elems)| + |f.what.close| + 1
    decreases |s| - p, 3
  {
    hide SkipSpace, At, TreeAt, RestAt, TextOf, RestText, IsTree;
    var q := SkipSpace(s, p);
    if q < |s| && s[q] == 93 {
      AtOne(s, q, 93);
      SkipReads(s, p, [93]);
      assert ElemsText([]) + (s[p..q] + [93]) == s[p..q] + [93];
    } else {
      TreeReads(s, p, num);
      var t := TreeAt(s, p, num).value;
      RestReads(s, t.end, num);
      var r := RestAt(s, t.end, num).value;
      var es := [Elem([], t.what)] + r.parts;
      assert es[1..] == r.parts;
      AtJoin(s, p, TextOf(t.what), RestText(r.parts) + (r.close + [93]));
      assert ElemsText(es) + (r.close + [93]) == TextOf(t.what) + (RestText(r.parts) + (r.close + [93]));
    }
  }

  lemma RestReads(s: Text, p: nat, num: Text -> bool)
    requires p <= |s| && RestAt(s, p, num).Some?
    ensures var r := RestAt(s, p, num).value;
      && AreElems(r.parts, num) && Spaces(r.close)
      && At(s, p, RestText(r.parts) + (r.close + [93])) && r.end == p + |RestText(r.parts)| + |r.close| + 1
    decreases |s| - p, 0
  {
    hide SkipSpace, At, TreeAt, TextOf, IsTree, RestText, RestAt;
    RestCases(s, p, num);
    var q := SkipSpace(s, p);
    RestStep(s, p, num);
    if s[q] == 44 {
      TreeReads(s, q + 1, num);
      var t := TreeAt(s, q + 1, num).value;
      RestReads(s, t.end, num);
      var r := RestAt(s, t.end, num).value;
      var es := [Elem(s[p..q], t.what)] + r.parts;
      assert es[1..] == r.parts;
      var e := RestText(r.parts) + (r.close + [93]);
      AtJoin(s, q + 1, TextOf(t.what), e);
      SkipReadsOne(s, p, 44, TextOf(t.what) + e);
      RestIs(es, r.close + [93]);
    } else {
      AtOne(s, q, 93);
      SkipReads(s, p, [93]);
      NoRest();
      assert RestText([]) + (s[p..q] + [93]) == s[p..q] + [93];
    }
  }

  lemma RestCases(s: Text, p: nat, num: Text -> bool)
    requires p <= |s| && RestAt(s, p, num).Some?
    ensures var q := SkipSpace(s, p);
      q < |s|
        && (s[q] == 93
            || (s[q] == 44 && TreeAt(s, q + 1, num).Some? && RestAt(s, TreeAt(s, q + 1, num).value.end, num).Some?))
  {
    hide SkipSpace, TreeAt;
  }

  lemma MoreCases(s: Text, p: nat, num: Text -> bool)
    requires p <= |s| && MoreAt(s, p, num).Some?
    ensures var q := SkipSpace(s, p);
      q < |s| && (s[q] == 125
        || (s[q] == 44 && EntryAt(s, q + 1, s[p..q], num).Some?
            && MoreAt(s, EntryAt(s, q + 1, s[p..q], num).value.end, num).Some?))
  {
    hide SkipSpace, EntryAt;
  }

  lemma EntryReads(s: Text, p: nat, comma: Text, num: Text -> bool)
    requires p <= |s| && EntryAt(s, p, comma, num).Some? && Spaces(comma)
    ensures var f := EntryAt(s, p, comma, num).value;
      IsEntry(f.what, num) && f.what.comma == comma && At(s, p, EntryText(f.what)) && f.end == p + |EntryText(f.what)|
    decreases |s| - p, 1
  {
    hide SkipSpace, At, TreeAt, TextOf, IsTree, StringAt, AllWritten, AllItems;
    var q := SkipSpace(s, p);
    CharsRead(s, p);
    var key := StringAt(s, q + 1).value;
    var c := SkipSpace(s, key.end);
    TreeReads(s, c + 1, num);
    var t := TreeAt(s, c + 1, num).value;
    SkipReadsOne(s, key.end, 58, TextOf(t.what));
    var e := s[key.end..c] + ([58] + TextOf(t.what));
    AtJoin(s, q, StringText(key.what), e);
    SkipReads(s, p, StringText(key.what) + e);
  }

  lemma ObjectReads(s: Text, p: nat, w: Text, num: Text -> bool)
    requires p <= |s| && ObjectAt(s, p, w, num).Some?
    ensures var f := ObjectAt(s, p, w, num).value;
      && f.what.Object? && f.what.space == w && Spaces(f.what.close) && AreEntries(f.what.entries, num)
      && (f.what.entries != [] ==> f.what.entries[0].comma == [])
      && At(s, p, EntriesText(f.what.entries) + (f.what.close + [125]))
      && f.end == p + |EntriesText(f.what.entries)| + |f.what.close| + 1
    decreases |s| - p, 3
  {
    hide SkipSpace, At, EntryAt, MoreAt, EntryText, MoreText, IsEntry;
    var q := SkipSpace(s, p);
    if q < |s| && s[q] == 125 {
      AtOne(s, q, 125);
      SkipReads(s, p, [125]);
      assert EntriesText([]) + (s[p..q] + [125]) == s[p..q] + [125];
    } else {
      EntryReads(s, p, [], num);
      var m := EntryAt(s, p, [], num).value;
      MoreReads(s, m.end, num);
      var r := MoreAt(s, m.end, num).value;
      var ms := [m.what] + r.parts;
      assert ms[1..] == r.parts;
      AtJoin(s, p, EntryText(m.what), MoreText(r.parts) + (r.close + [125]));
      assert EntriesText(ms) + (r.close + [125]) == EntryText(m.what) + (MoreText(r.parts) + (r.close + [125]));
    }
  }

  lemma MoreReads(s: Text, p: nat, num: Text -> bool)
    requires p <= |s| && MoreAt(s, p, num).Some?
    ensures var r := MoreAt(s, p, num).value;
      && AreEntries(r.parts, num) && Spaces(r.close)
      && At(s, p, MoreText(r.parts) + (r.close + [125])) && r.end == p + |MoreText(r.parts)| + |r.close| + 1
    decreases |s| - p, 0
  {
    hide SkipSpace, At, EntryAt, EntryText, IsEntry, MoreText, MoreAt;
    MoreCases(s, p, num);
    var q := SkipSpace(s, p);
    MoreStep(s, p, num);
    if s[q] == 44 {
      SkipSpaces(s, p);
      EntryReads(s, q + 1, s[p..q], num);
      var m := EntryAt(s, q + 1, s[p..q], num).value;
      MoreReads(s, m.end, num);
      var r := MoreAt(s, m.end, num).value;
      var ms := [m.what] + r.parts;
      assert ms[1..] == r.parts;
      var e := MoreText(r.parts) + (r.close + [125]);
      AtJoin(s, q + 1, EntryText(m.what), e);
      SkipReadsOne(s, p, 44, EntryText(m.what) + e);
      MoreIs(ms, r.close + [125]);
    } else {
      AtOne(s, q, 125);
      SkipReads(s, p, [125]);
      NoRest();
      assert MoreText([]) + (s[p..q] + [125]) == s[p..q] + [125];
    }
  }

  // ----- together -----

  /** Reading succeeds exactly where a text of the grammar stands, and finds it. */
  lemma Exact(s: Text, p: nat, num: Text -> bool)
    requires p <= |s|
    ensures TreeAt(s, p, num).Some? <==> exists t :: Reads(s, p, t, num)
    ensures forall t {:trigger Reads(s, p, t, num)} ::
      Reads(s, p, t, num) ==> TreeAt(s, p, num) == Some(Found(t, p + |TextOf(t)|))
  {
    hide TreeAt, Reads, TextOf;
    if TreeAt(s, p, num).Some? { TreeReads(s, p, num); }
    forall t {:trigger Reads(s, p, t, num)} | Reads(s, p, t, num)
      ensures TreeAt(s, p, num) == Some(Found(t, p + |TextOf(t)|))
    {
      TreeFound(s, p, t, num);
    }
  }
}
