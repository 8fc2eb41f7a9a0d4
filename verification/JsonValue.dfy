/** picojson's recursive parser of values, arrays and objects. */
module JsonValue {
  import opened Bytes
  import opened Json
  import opened JsonInput
  import opened JsonParse
  import opened JsonTree
  import opened JsonExact

  // ----- objects -----

  lemma {:induction false} InsertKeys(ms: seq<Member>, key: Text, val: Value, i: nat)
    requires i < |Insert(ms, key, val)|
    ensures Insert(ms, key, val)[i].key == key || exists j :: 0 <= j < |ms| && Insert(ms, key, val)[i] == ms[j]
  {
    if ms != [] && !Less(key, ms[0].key) && ms[0].key != key {
      if i > 0 {
        InsertKeys(ms[1..], key, val, i - 1);
        if Insert(ms[1..], key, val)[i - 1].key != key {
          var j :| 0 <= j < |ms[1..]| && Insert(ms[1..], key, val)[i - 1] == ms[1..][j];
          assert ms[j + 1] == ms[1..][j];
        }
      }
    } else if ms != [] && i > 0 {
      assert Insert(ms, key, val)[i] == if Less(key, ms[0].key) then ms[i - 1] else ms[i];
    }
  }

  lemma {:induction false} InsertSorted(ms: seq<Member>, key: Text, val: Value)
    requires Sorted(ms)
    ensures Sorted(Insert(ms, key, val))
  {
    if ms != [] {
      LessTotal(key, ms[0].key);
      var r := Insert(ms, key, val);
      if !Less(key, ms[0].key) && ms[0].key != key {
        InsertSorted(ms[1..], key, val);
        forall i {:trigger r[i]} | 1 <= i < |r|
          ensures Less(r[0].key, r[i].key)
        {
          InsertKeys(ms[1..], key, val, i - 1);
          assert r[i] == Insert(ms[1..], key, val)[i - 1];
        }
        SortedCons(r);
      } else if Less(key, ms[0].key) {
        forall i {:trigger r[i]} | 1 <= i < |r|
          ensures Less(r[0].key, r[i].key)
        {
          assert r[i] == ms[i - 1];
          if i > 1 { LessTrans(key, ms[0].key, ms[i - 1].key); }
        }
        assert r[1..] == ms;
        SortedCons(r);
      }
    }
  }

  lemma SortedCons(r: seq<Member>)
    requires r != [] && Sorted(r[1..]) && forall i {:trigger r[i]} :: 1 <= i < |r| ==> Less(r[0].key, r[i].key)
    ensures Sorted(r)
  {
    forall i, j {:trigger r[i], r[j]} | 0 <= i < j < |r|
      ensures Less(r[i].key, r[j].key)
    {
      if i > 0 { assert r[i] == r[1..][i - 1] && r[j] == r[1..][j - 1]; }
    }
  }

  /** A key after all others goes to the end. */
  lemma {:induction false} InsertLast(ms: seq<Member>, key: Text, val: Value)
    requires forall i {:trigger ms[i]} :: 0 <= i < |ms| ==> Less(ms[i].key, key)
    ensures Insert(ms, key, val) == ms + [Member(key, val)]
  {
    if ms != [] {
      LessTotal(ms[0].key, key);
      InsertLast(ms[1..], key, val);
    }
  }

  // ----- what comes out is in order -----

  /** Objects, at every level, are in order: no key twice. */
  predicate InOrder(v: Value) {
    match v
    case Arr(items) => forall i {:trigger items[i]} :: 0 <= i < |items| ==> InOrder(items[i])
    case Obj(ms) => Sorted(ms) && forall i {:trigger ms[i]} :: 0 <= i < |ms| ==> InOrder(ms[i].val)
    case _ => true
  }

  lemma InsertInOrder(ms: seq<Member>, key: Text, val: Value)
    requires InOrder(Obj(ms)) && InOrder(val)
    ensures InOrder(Obj(Insert(ms, key, val)))
  {
    InsertSorted(ms, key, val);
    var r := Insert(ms, key, val);
    forall i {:trigger r[i]} | 0 <= i < |r|
      ensures InOrder(r[i].val)
    {
      InsertedFrom(ms, key, val, i);
    }
  }

  lemma {:induction false} InsertedFrom(ms: seq<Member>, key: Text, val: Value, i: nat)
    requires i < |Insert(ms, key, val)|
    ensures Insert(ms, key, val)[i] == Member(key, val)
      || exists j {:trigger ms[j]} :: 0 <= j < |ms| && Insert(ms, key, val)[i] == ms[j]
  {
    if ms != [] {
      if Less(key, ms[0].key) {
        if i > 0 { assert Insert(ms, key, val)[i] == ms[i - 1]; }
      } else if ms[0].key == key {
        if i > 0 { assert Insert(ms, key, val)[i] == ms[i]; }
      } else if i > 0 {
        InsertedFrom(ms[1..], key, val, i - 1);
        if Insert(ms[1..], key, val)[i - 1] != Member(key, val) {
          var j :| 0 <= j < |ms[1..]| && Insert(ms[1..], key, val)[i - 1] == ms[1..][j];
          assert ms[j + 1] == ms[1..][j];
        }
      }
    }
  }

  lemma EmptyInOrder()
    ensures InOrder(Obj([]))
  {
  }

  lemma {:induction false} DenotesInOrder(t: Tree, num: Text -> bool)
    requires IsTree(t, num)
    ensures InOrder(Denotes(t, num))
    decreases t
  {
    match t
    case Word(_, _) =>
    case Number(_, _) =>
    case Chars(_, _) =>
    case Array(_, es, _) => ValuesInOrder(es, num);
    case Object(_, ms, _) => MembersInOrder(ms, num);
  }

  lemma ValuesInOrder(es: seq<Elem>, num: Text -> bool)
    requires AreElems(es, num)
    ensures InOrder(Arr(Values(es, num)))
    decreases es
  {
    if es != [] {
      ValuesInOrder(es[..|es| - 1], num);
      DenotesInOrder(es[|es| - 1].tree, num);
    }
  }

  lemma MembersInOrder(ms: seq<Entry>, num: Text -> bool)
    requires AreEntries(ms, num)
    ensures InOrder(Obj(Members(ms, num)))
    decreases ms
  {
    if ms == [] {
      EmptyInOrder();
    } else {
      var e := ms[|ms| - 1];
      assert IsEntry(e, num);
      MembersInOrder(ms[..|ms| - 1], num);
      DenotesInOrder(e.tree, num);
      hide InOrder, Insert, Denotes;
      InsertInOrder(Members(ms[..|ms| - 1], num), AllMeaning(e.key), Denotes(e.tree, num));
    }
  }

  // ----- what the parser returns -----

  /** The parser's verdict, value and position are those of what is read, r. */
  ghost predicate Gives(r: Option<Found<Tree>>, num: Text -> bool, ok: bool, v: Value, pos: nat) {
    && (ok <==> r.Some?)
    && (ok ==> IsTree(r.value.what, num) && v == Denotes(r.value.what, num) && pos == r.value.end)
  }

  ghost predicate GivesEntry(r: Option<Found<Entry>>, num: Text -> bool, ok: bool, key: Text, val: Value, pos: nat) {
    && (ok <==> r.Some?)
    && (ok ==>
          && IsEntry(r.value.what, num) && key == AllMeaning(r.value.what.key)
          && val == Denotes(r.value.what.tree, num) && pos == r.value.end)
  }

  /** Reading that starts at p, where white space may have been skipped already. */
  ghost predicate From(inp: Input, p: nat)
    requires inp.Valid()
    reads inp
  {
    p <= inp.Pos() && SkipSpace(inp.s, p) == SkipSpace(inp.s, inp.Pos())
  }

  /** _parse_number(); num is strtod()'s verdict on whether it takes all of the text. */
  method ParseNumber(inp: Input, num: Text -> bool) returns (ok: bool, text: Text)
    requires inp.Valid()
    modifies inp
    ensures inp.Valid() && inp.Pos() == NumberEnd(inp.s, old(inp.Pos()))
    ensures text == inp.s[old(inp.Pos())..inp.Pos()] && ok == num(text) && (inp.ungot <==> inp.Pos() < |inp.s|)
  {
    text := [];
    ghost var p := inp.Pos();
    while true
      invariant inp.Valid() && p <= inp.Pos() && text == inp.s[p..inp.Pos()]
        && NumberEnd(inp.s, inp.Pos()) == NumberEnd(inp.s, p)
      decreases |inp.s| - inp.Pos()
    {
      var ch := inp.GetC();
      if (48 <= ch <= 57) || ch == 43 || ch == 45 || ch == 46 || ch == 101 || ch == 69 {
        text := text + [ch];
      } else {
        inp.UngetC();
        break;
      }
    }
    ok := num(text);
  }

  lemma WordThere(s: Text, q: nat)
    requires q < |s|
    ensures At(s, q, NULL) <==> s[q] == 110 && [117, 108, 108] <= s[q + 1..]
    ensures At(s, q, FALSE) <==> s[q] == 102 && [97, 108, 115, 101] <= s[q + 1..]
    ensures At(s, q, TRUE) <==> s[q] == 116 && [114, 117, 101] <= s[q + 1..]
  {
    assert s[q..] == [s[q]] + s[q + 1..];
    assert NULL == [110] + [117, 108, 108] && FALSE == [102] + [97, 108, 115, 101] && TRUE == [116] + [114, 117, 101];
  }

  /** What is read at p is read from the first character that is not white space. */
  lemma TreeWords(s: Text, p: nat, num: Text -> bool)
    requires p <= |s| && SkipSpace(s, p) < |s| && s[SkipSpace(s, p)] in {110, 102, 116}
    ensures var q := SkipSpace(s, p);
      var w, r := s[p..q], TreeAt(s, p, num);
      && Spaces(w)
      && (s[q] == 110 ==> r == if [117, 108, 108] <= s[q + 1..] then Some(Found(Word(w, Null), q + 4)) else None)
      && (s[q] == 102 ==>
          r == if [97, 108, 115, 101] <= s[q + 1..] then Some(Found(Word(w, Bool(false)), q + 5)) else None)
      && (s[q] == 116 ==> r == if [114, 117, 101] <= s[q + 1..] then Some(Found(Word(w, Bool(true)), q + 4)) else None)
  {
    hide SkipSpace, At, StringAt, ArrayAt, ObjectAt, NumberEnd, Spaces;
    SkipSpaces(s, p);
    WordThere(s, SkipSpace(s, p));
  }

  lemma TreeChars(s: Text, p: nat, num: Text -> bool)
    requires p <= |s| && SkipSpace(s, p) < |s| && s[SkipSpace(s, p)] == 34
    ensures var q := SkipSpace(s, p); var f := StringAt(s, q + 1);
      && Spaces(s[p..q])
      && TreeAt(s, p, num) == (if f.None? then None else Some(Found(Chars(s[p..q], f.value.what), f.value.end)))
      && (f.Some? ==>
          Quoted(s, q + 1, f.value.what) && AllItems(f.value.what) && f.value.end == q + |AllWritten(f.value.what)| + 2)
  {
    hide SkipSpace, At, StringAt, ArrayAt, ObjectAt, NumberEnd, Spaces, Quoted, AllItems, AllWritten;
    var q := SkipSpace(s, p);
    SkipSpaces(s, p);
    if StringAt(s, q + 1).Some? { StringFound(s, q + 1); }
  }

  lemma TreeNumber(s: Text, p: nat, num: Text -> bool)
    requires p <= |s| && (SkipSpace(s, p) < |s| ==> s[SkipSpace(s, p)] !in {110, 102, 116, 34, 91, 123})
    ensures var q := SkipSpace(s, p);
      if q == |s| || !StartsNumber(s[q]) then TreeAt(s, p, num).None?
      else
        var d := s[q..NumberEnd(s, q)];
        && TreeAt(s, p, num) == (if num(d) then Some(Found(Number(s[p..q], d), NumberEnd(s, q))) else None)
        && Spaces(s[p..q]) && d != [] && StartsNumber(d[0]) && NumberChars(d)
  {
    hide SkipSpace, At, StringAt, ArrayAt, ObjectAt, Spaces;
    var q := SkipSpace(s, p);
    SkipSpaces(s, p);
    if q < |s| && StartsNumber(s[q]) {
      NumberRun(s, q);
      assert NumberEnd(s, q) > q;
    }
  }

  /** _parse(): succeeds exactly where a text of the grammar stands, and returns what it stands for. */
  method Parse(inp: Input, num: Text -> bool, ghost p: nat) returns (ok: bool, v: Value)
    requires inp.Valid() && From(inp, p)
    modifies inp
    ensures inp.Valid() && old(inp.Pos()) <= inp.Pos() && Gives(TreeAt(inp.s, p, num), num, ok, v, inp.Pos())
    ensures ok ==> (inp.ungot <==> v.Num? && inp.Pos() < |inp.s|)
    decreases |inp.s| - inp.Pos(), 0
  {
    hide SkipSpace, At, TreeAt, StringAt, ArrayAt, ObjectAt, NumberEnd, AllItems, AllMeaning, AllWritten, Quoted,
      Values, Members;
    hide Spaces, NumberChars, IsTree, Denotes;
    v := Null;
    inp.SkipWs();
    ghost var s, q := inp.s, inp.Pos();
    ghost var w := s[p..q];
    assert Spaces(w) by { SkipSpaces(s, p); }
    var ch := inp.GetC();
    match ch {
      case 110 =>
        TreeWords(s, p, num);
        WordDenotes(w, Null, num);
        ok := inp.Match([117, 108, 108]);
      case 102 =>
        TreeWords(s, p, num);
        v := Bool(false);
        WordDenotes(w, v, num);
        ok := inp.Match([97, 108, 115, 101]);
      case 116 =>
        TreeWords(s, p, num);
        v := Bool(true);
        WordDenotes(w, v, num);
        ok := inp.Match([114, 117, 101]);
      case 34 =>
        TreeChars(s, p, num);
        StringNone(s, q + 1);
        if StringAt(s, q + 1).Some? { CharsDenotes(w, StringAt(s, q + 1).value.what, num); }
        var t;
        ok, t := ParseString(inp);
        v := Str(t);
      case 91 =>
        TreeOpens(s, p, num);
        ok, v := ParseArray(inp, num, w);
      case 123 =>
        TreeOpens(s, p, num);
        ok, v := ParseObject(inp, num, w);
      case _ =>
        TreeNumber(s, p, num);
        ok := false;
        inp.UngetC();
        if (48 <= ch <= 57) || ch == 45 {
          var t;
          ok, t := ParseNumber(inp, num);
          v := Num(t);
          if ok { NumberDenotes(w, t, num); }
        }
    }
  }

  lemma WordDenotes(w: Text, v: Value, num: Text -> bool)
    requires Spaces(w) && (v.Null? || v.Bool?)
    ensures IsTree(Word(w, v), num) && Denotes(Word(w, v), num) == v
  {
  }

  lemma NumberDenotes(w: Text, d: Text, num: Text -> bool)
    requires Spaces(w) && d != [] && StartsNumber(d[0]) && NumberChars(d) && num(d)
    ensures IsTree(Number(w, d), num) && Denotes(Number(w, d), num) == Num(d)
  {
  }

  lemma CharsDenotes(w: Text, items: seq<Item>, num: Text -> bool)
    requires Spaces(w) && AllItems(items)
    ensures IsTree(Chars(w, items), num) && Denotes(Chars(w, items), num) == Str(AllMeaning(items))
  {
    hide AllItems, AllMeaning;
  }

  lemma StringNone(s: Text, p: nat)
    ensures StringAt(s, p).None? <==> !exists items :: Quoted(s, p, items)
  {
    hide Quoted;
  }

  // ----- arrays -----

  /** What the whole array is, when the elements done are followed by what is read at p. */
  ghost function FromRest(s: Text, p: nat, num: Text -> bool, w: Text, done: seq<Elem>): Option<Found<Tree>>
    requires p <= |s|
  {
    var r := RestAt(s, p, num);
    if r.None? then None else Some(Found(Array(w, done + r.value.parts, r.value.close), r.value.end))
  }

  ghost function FromTree(s: Text, p: nat, num: Text -> bool, w: Text, done: seq<Elem>,
      comma: Text): Option<Found<Tree>>
    requires p <= |s|
  {
    var t := TreeAt(s, p, num);
    if t.None? then None else FromRest(s, t.value.end, num, w, done + [Elem(comma, t.value.what)])
  }

  lemma ArrayBegins(s: Text, p: nat, num: Text -> bool, w: Text)
    requires p <= |s|
    ensures var q := SkipSpace(s, p);
      if q < |s| && s[q] == 93 then ArrayAt(s, p, w, num) == Some(Found(Array(w, [], s[p..q]), q + 1))
        && Spaces(s[p..q])
      else ArrayAt(s, p, w, num) == FromTree(s, p, num, w, [], [])
  {
    hide SkipSpace, TreeAt, RestAt;
    SkipSpaces(s, p);
    if TreeAt(s, p,
      num).Some? { assert [] + [Elem([], TreeAt(s, p, num).value.what)] == [Elem([], TreeAt(s, p, num).value.what)]; }
  }

  lemma RestGoes(s: Text, p: nat, num: Text -> bool, w: Text, done: seq<Elem>)
    requires p <= |s|
    ensures var q := SkipSpace(s, p);
      && Spaces(s[p..q])
      && (q < |s| && s[q] == 44 ==> FromRest(s, p, num, w, done) == FromTree(s, q + 1, num, w, done, s[p..q]))
      && (q < |s| && s[q] == 93 ==> FromRest(s, p, num, w, done) == Some(Found(Array(w, done, s[p..q]), q + 1)))
      && (q == |s| || s[q] !in {44, 93} ==> FromRest(s, p, num, w, done).None?)
  {
    hide SkipSpace, TreeAt, RestAt;
    var q := SkipSpace(s, p);
    SkipSpaces(s, p);
    if q < |s| && s[q] in {44, 93} {
      RestStep(s, p, num);
      if s[q] == 44 && TreeAt(s, q + 1, num).Some? {
        var t := TreeAt(s, q + 1, num).value;
        var r := RestAt(s, t.end, num);
        if r.Some? { assert done + ([Elem(s[p..q], t.what)] + r.value.parts) == done + [Elem(s[p..q],
          t.what)] + r.value.parts; }
      }
      assert done + [] == done;
    }
    RestStops(s, p, num);
  }

  lemma RestStops(s: Text, p: nat, num: Text -> bool)
    requires p <= |s|
    ensures var q := SkipSpace(s, p);
      q == |s| || s[q] !in {44, 93} || (s[q] == 44 && TreeAt(s, q + 1, num).None?) ==> RestAt(s, p, num).None?
  {
    hide SkipSpace, TreeAt;
  }

  /** One more element. */
  lemma DoneMore(done: seq<Elem>, e: Elem, num: Text -> bool)
    requires AreElems(done, num) && Spaces(e.comma) && IsTree(e.tree, num) && (done == [] ==> e.comma == [])
    requires done != [] ==> done[0].comma == []
    ensures var es := done + [e];
      AreElems(es, num) && es[0].comma == [] && Values(es, num) == Values(done, num) + [Denotes(e.tree, num)]
  {
    hide IsTree, Denotes;
    assert (done + [e])[..|done|] == done;
  }

  lemma WholeArray(w: Text, done: seq<Elem>, close: Text, num: Text -> bool)
    requires Spaces(w) && Spaces(close) && AreElems(done, num) && (done != [] ==> done[0].comma == [])
    ensures IsTree(Array(w, done, close), num) && Denotes(Array(w, done, close), num) == Arr(Values(done, num))
  {
  }

  /** _parse_array(), after the opening bracket. */
  method ParseArray(inp: Input, num: Text -> bool, ghost w: Text) returns (ok: bool, v: Value)
    requires inp.Valid() && Spaces(w)
    modifies inp
    ensures inp.Valid() && old(inp.Pos()) <= inp.Pos()
      && Gives(ArrayAt(inp.s, old(inp.Pos()), w, num), num, ok, v, inp.Pos())
    ensures ok ==> v.Arr? && !inp.ungot
    decreases |inp.s| - inp.Pos(), 1
  {
    hide SkipSpace, TreeAt, ArrayAt, FromRest, FromTree, Values, AreElems, IsTree, Denotes, Spaces;
    ghost var s, p := inp.s, inp.Pos();
    ghost var goal := ArrayAt(s, p, w, num);
    ArrayBegins(s, p, num, w);
    NoneDone(num);
    var empty := inp.Expect(93);
    if empty {
      WholeArray(w, [], s[p..SkipSpace(s, p)], num);
      return true, Arr([]);
    }
    SkipTwice(s, p);
    var items: seq<Value> := [];
    ghost var done: seq<Elem>, comma: Text, from: nat := [], [], p;
    var more := true;
    while more
      invariant inp.Valid() && p <= inp.Pos() && From(inp, from) && inp.s == s
      invariant AreElems(done, num) && items == Values(done, num) && (done != [] ==> done[0].comma == [])
      invariant more ==> Spaces(comma) && (done == [] ==> comma == []) && goal == FromTree(s, from, num, w, done, comma)
      invariant !more ==> goal == FromRest(s, from, num, w, done)
      invariant !more ==> SkipSpace(s, from) == |s| || s[SkipSpace(s, from)] != 44
      decreases if more then 1 else 0, |s| - inp.Pos()
    {
      var item;
      TreeNext(s, from, num, w, done, comma);
      ok, item := Parse(inp, num, from);
      if !ok { return false, Arr(items); }
      ghost var e := Elem(comma, TreeAt(s, from, num).value.what);
      DoneMore(done, e, num);
      items, done := items + [item], done + [e];
      from := inp.Pos();
      RestGoes(s, from, num, w, done);
      SkipTwice(s, from);
      more := inp.Expect(44);
      if more { comma, from := s[from..SkipSpace(s, from)], inp.Pos(); }
    }
    ok := inp.Expect(93);
    RestGoes(s, from, num, w, done);
    WholeArray(w, done, s[from..SkipSpace(s, from)], num);
    v := Arr(items);
  }

  lemma NoneDone(num: Text -> bool)
    ensures AreElems([], num) && Values([], num) == [] && AreEntries([], num) && Members([], num) == [] && Spaces([])
  {
  }

  lemma SkipTwice(s: Text, p: nat)
    requires p <= |s|
    ensures SkipSpace(s, SkipSpace(s, p)) == SkipSpace(s, p)
  {
  }

  lemma TreeNext(s: Text, p: nat, num: Text -> bool, w: Text, done: seq<Elem>, comma: Text)
    requires p <= |s|
    ensures var t := TreeAt(s, p, num);
      FromTree(s, p, num, w, done, comma)
        == if t.None? then None else FromRest(s, t.value.end, num, w, done + [Elem(comma, t.value.what)])
  {
    hide TreeAt, RestAt;
  }

  // ----- objects -----

  ghost function FromMore(s: Text, p: nat, num: Text -> bool, w: Text, done: seq<Entry>): Option<Found<Tree>>
    requires p <= |s|
  {
    var r := MoreAt(s, p, num);
    if r.None? then None else Some(Found(Object(w, done + r.value.parts, r.value.close), r.value.end))
  }

  ghost function FromEntry(s: Text, p: nat, num: Text -> bool, w: Text, done: seq<Entry>,
      comma: Text): Option<Found<Tree>>
    requires p <= |s|
  {
    var e := EntryAt(s, p, comma, num);
    if e.None? then None else FromMore(s, e.value.end, num, w, done + [e.value.what])
  }

  lemma ObjectBegins(s: Text, p: nat, num: Text -> bool, w: Text)
    requires p <= |s|
    ensures var q := SkipSpace(s, p);
      if q < |s| && s[q] == 125 then ObjectAt(s, p, w, num) == Some(Found(Object(w, [], s[p..q]), q + 1))
        && Spaces(s[p..q])
      else ObjectAt(s, p, w, num) == FromEntry(s, p, num, w, [], [])
  {
    hide SkipSpace, EntryAt, MoreAt;
    SkipSpaces(s, p);
    if EntryAt(s, p, [],
      num).Some? { assert [] + [EntryAt(s, p, [], num).value.what] == [EntryAt(s, p, [], num).value.what]; }
  }

  lemma MoreGoes(s: Text, p: nat, num: Text -> bool, w: Text, done: seq<Entry>)
    requires p <= |s|
    ensures var q := SkipSpace(s, p);
      && Spaces(s[p..q])
      && (q < |s| && s[q] == 44 ==> FromMore(s, p, num, w, done) == FromEntry(s, q + 1, num, w, done, s[p..q]))
      && (q < |s| && s[q] == 125 ==> FromMore(s, p, num, w, done) == Some(Found(Object(w, done, s[p..q]), q + 1)))
      && (q == |s| || s[q] !in {44, 125} ==> FromMore(s, p, num, w, done).None?)
  {
    hide SkipSpace, EntryAt, MoreAt;
    var q := SkipSpace(s, p);
    SkipSpaces(s, p);
    if q < |s| && s[q] in {44, 125} {
      MoreStep(s, p, num);
      if s[q] == 44 && EntryAt(s, q + 1, s[p..q], num).Some? {
        var m := EntryAt(s, q + 1, s[p..q], num).value;
        var r := MoreAt(s, m.end, num);
        if r.Some? { assert done + ([m.what] + r.value.parts) == done + [m.what] + r.value.parts; }
      }
      assert done + [] == done;
    }
    MoreStops(s, p, num);
  }

  lemma MoreStops(s: Text, p: nat, num: Text -> bool)
    requires p <= |s|
    ensures var q := SkipSpace(s, p);
      q == |s| || s[q] !in {44, 125} || (s[q] == 44 && EntryAt(s, q + 1, s[p..q], num).None?) ==>
        MoreAt(s, p, num).None?
  {
    hide SkipSpace, EntryAt;
  }

  lemma EntryMore(done: seq<Entry>, e: Entry, num: Text -> bool)
    requires AreEntries(done, num) && IsEntry(e, num) && (done == [] ==> e.comma == [])
      && (done != [] ==> done[0].comma == [])
    ensures var ms := done + [e];
      && AreEntries(ms, num) && ms[0].comma == []
      && Members(ms, num) == Insert(Members(done, num), AllMeaning(e.key), Denotes(e.tree, num))
  {
    hide IsTree, Denotes, Insert;
    assert (done + [e])[..|done|] == done;
  }

  lemma WholeObject(w: Text, done: seq<Entry>, close: Text, num: Text -> bool)
    requires Spaces(w) && Spaces(close) && AreEntries(done, num) && (done != [] ==> done[0].comma == [])
    ensures IsTree(Object(w, done, close), num) && Denotes(Object(w, done, close), num) == Obj(Members(done, num))
  {
  }

  lemma EntryNext(s: Text, p: nat, num: Text -> bool, w: Text, done: seq<Entry>, comma: Text)
    requires p <= |s|
    ensures var e := EntryAt(s, p, comma, num);
      && FromEntry(s, p, num, w, done, comma) ==
        (if e.None? then None else FromMore(s, e.value.end, num, w, done + [e.value.what]))
      && (e.Some? ==> e.value.what.comma == comma)
  {
    hide TreeAt, MoreAt, SkipSpace, StringAt;
  }

  /** What a member is, by its parts. */
  lemma EntryCases(s: Text, p: nat, comma: Text, num: Text -> bool)
    requires p <= |s|
    ensures var q, r := SkipSpace(s, p), EntryAt(s, p, comma, num);
      && Spaces(s[p..q])
      && (q == |s| || s[q] != 34 ==> r.None?)
      && (q < |s| && s[q] == 34 ==>
            var key := StringAt(s, q + 1);
            && (key.None? ==> r.None?)
            && (key.Some? ==>
                  var c := SkipSpace(s, key.value.end);
                  && Spaces(s[key.value.end..c])
                  && (c == |s| || s[c] != 58 ==> r.None?)
                  && (c < |s| && s[c] == 58 ==>
                        var t := TreeAt(s, c + 1, num);
                        r == if t.None? then None
                             else Some(Found(Entry(comma, s[p..q], key.value.what, s[key.value.end..c], t.value.what),
                               t.value.end)))))
  {
    hide SkipSpace, StringAt, TreeAt, Spaces;
    var q := SkipSpace(s, p);
    SkipSpaces(s, p);
    if q < |s| && s[q] == 34 && StringAt(s, q + 1).Some? { SkipSpaces(s, StringAt(s, q + 1).value.end); }
  }

  /** The body of _parse_object's loop: a quoted key, a colon and a value. */
  method ParseMember(inp: Input, num: Text -> bool, ghost p: nat, ghost comma: Text)
    returns (ok: bool, key: Text, val: Value)
    requires inp.Valid() && From(inp, p) && Spaces(comma)
    modifies inp
    ensures inp.Valid() && old(inp.Pos()) <= inp.Pos()
      && GivesEntry(EntryAt(inp.s, p, comma, num), num, ok, key, val, inp.Pos())
    decreases |inp.s| - inp.Pos(), 1
  {
    hide SkipSpace, TreeAt, EntryAt, StringAt, AllItems, AllMeaning, AllWritten, Quoted, IsTree, Denotes, Spaces, At;
    ghost var s := inp.s;
    key, val := [], Null;
    EntryCases(s, p, comma, num);
    ok := inp.Expect(34);
    if !ok { return; }
    ghost var a := inp.Pos();
    if StringAt(s, a).Some? { StringFound(s, a); }
    StringNone(s, a);
    ok, key := ParseString(inp);
    if !ok { return; }
    ok := inp.Expect(58);
    if !ok { return; }
    ok, val := Parse(inp, num, inp.Pos());
  }

  /** _parse_object(), after the opening brace. */
  method ParseObject(inp: Input, num: Text -> bool, ghost w: Text) returns (ok: bool, v: Value)
    requires inp.Valid() && Spaces(w)
    modifies inp
    ensures inp.Valid() && old(inp.Pos()) <= inp.Pos()
      && Gives(ObjectAt(inp.s, old(inp.Pos()), w, num), num, ok, v, inp.Pos())
    ensures ok ==> v.Obj? && !inp.ungot
    decreases |inp.s| - inp.Pos(), 2
  {
    hide SkipSpace, EntryAt, ObjectAt, FromMore, FromEntry, Members, AreEntries, IsEntry, IsTree, Denotes, Spaces,
      Insert, AllMeaning;
    ghost var s, p := inp.s, inp.Pos();
    ghost var goal := ObjectAt(s, p, w, num);
    ObjectBegins(s, p, num, w);
    NoneDone(num);
    var empty := inp.Expect(125);
    if empty {
      WholeObject(w, [], s[p..SkipSpace(s, p)], num);
      return true, Obj([]);
    }
    SkipTwice(s, p);
    var ms: seq<Member> := [];
    ghost var done: seq<Entry>, comma: Text, from: nat := [], [], p;
    var more := true;
    while more
      invariant inp.Valid() && p <= inp.Pos() && From(inp, from) && inp.s == s
      invariant AreEntries(done, num) && ms == Members(done, num) && (done != [] ==> done[0].comma == [])
      invariant more ==>
        Spaces(comma) && (done == [] ==> comma == []) && goal == FromEntry(s, from, num, w, done, comma)
      invariant !more ==> goal == FromMore(s, from, num, w, done)
      invariant !more ==> SkipSpace(s, from) == |s| || s[SkipSpace(s, from)] != 44
      decreases if more then 1 else 0, |s| - inp.Pos()
    {
      var key, val;
      EntryNext(s, from, num, w, done, comma);
      ok, key, val := ParseMember(inp, num, from, comma);
      if !ok { return false, Obj(ms); }
      ghost var e := EntryAt(s, from, comma, num).value.what;
      EntryMore(done, e, num);
      ms, done := Insert(ms, key, val), done + [e];
      from := inp.Pos();
      MoreGoes(s, from, num, w, done);
      SkipTwice(s, from);
      more := inp.Expect(44);
      if more { comma, from := s[from..SkipSpace(s, from)], inp.Pos(); }
    }
    ok := inp.Expect(125);
    MoreGoes(s, from, num, w, done);
    WholeObject(w, done, s[from..SkipSpace(s, from)], num);
    v := Obj(ms);
  }

  // ----- whole texts -----

  /**
    parse(): it succeeds if and only if the text starts with a text of the grammar (a number taken as far
    as it goes), returns what that text stands for, with sorted and unique keys, and stops behind it, or
    behind the character after a number.
   */
  method ParseText(s: Text, num: Text -> bool) returns (ok: bool, v: Value, end: nat)
    ensures ok <==> exists t :: Reads(s, 0, t, num)
    ensures forall t {:trigger Reads(s, 0, t, num)} :: Reads(s, 0, t, num) ==>
      && IsTree(t, num) && v == Denotes(t, num)
      && end == |TextOf(t)| + if t.Number? && |TextOf(t)| < |s| then 1 else 0
    ensures ok ==> InOrder(v)
  {
    hide Reads, TreeAt, Denotes, TextOf, InOrder, IsTree, SkipSpace;
    var inp := new Input(s);
    Exact(s, 0, num);
    ok, v := Parse(inp, num, 0);
    if ok { DenotesInOrder(TreeAt(s, 0, num).value.what, num); }
    KindOf(s, num);
    end := inp.cur;
  }

  lemma KindOf(s: Text, num: Text -> bool)
    ensures forall t {:trigger Reads(s, 0, t, num)} ::
      Reads(s, 0, t, num) ==> IsTree(t, num) && (Denotes(t, num).Num? <==> t.Number?)
  {
    hide TextOf, At, AreElems, AreEntries, Values, Members;
  }

  /** The digit 1 and a space: the cursor ends behind the space. */
  method PastNumber(num: Text -> bool) returns (s: Text, v: Value, end: nat)
    requires num([49])
    ensures s == [49, 32] && v == Num([49]) && end == 2
  {
    s := [49, 32];
    var t := Number([], [49]);
    assert TextOf(t) == [49];
    assert Reads(s, 0, t, num) by { assert s[0..] == s; }
    var ok;
    ok, v, end := ParseText(s, num);
  }

  // ----- serialized values -----

  /** The text of the grammar that the printer writes. */
  function TreeOf(v: Value): Tree
    requires Plain(v)
  {
    match v
    case Null => Word([], v)
    case Bool(_) => Word([], v)
    case Str(s) => Chars([], PrintedFrom(s, 0))
    case Arr(items) => Array([], seq(|items|, i requires 0 <= i < |items| => Elem([], TreeOf(items[i]))), [])
    case Obj(ms) =>
      Object([], seq(|ms|, i requires 0 <= i < |ms| => Entry([], [], PrintedFrom(ms[i].key, 0), [], TreeOf(ms[i].val))),
        [])
  }

  /** It is one, it is what is written, and it stands for the value. */
  lemma {:induction false} TreeOfWrites(v: Value, num: Text -> bool)
    requires Plain(v)
    ensures var t := TreeOf(v); IsTree(t, num) && TextOf(t) == Write(v) && Denotes(t, num) == v && !t.Number?
    decreases v
  {
    match v
    case Null =>
    case Bool(_) =>
    case Str(s) =>
      PrintedAll(s, 0);
      CharsWrite(s);
    case Arr(items) =>
      forall i | 0 <= i < |items| ensures Plain(items[i]) && Written1(items[i], num) { TreeOfWrites(items[i], num); }
      ArrayWrites(items, num);
    case Obj(ms) =>
      forall i | 0 <= i < |ms| ensures Plain(ms[i].val) && Written1(ms[i].val, num) { TreeOfWrites(ms[i].val, num); }
      ObjectWrites(ms, num);
  }

  ghost predicate Written1(v: Value, num: Text -> bool)
    requires Plain(v)
  {
    var t := TreeOf(v); IsTree(t, num) && TextOf(t) == Write(v) && Denotes(t, num) == v
  }

  lemma CharsWrite(s: Text)
    requires AllWritten(PrintedFrom(s, 0)) == EscapeFrom(s, 0)
    ensures StringText(PrintedFrom(s, 0)) == Quote(s)
    ensures TextOf(Chars([], PrintedFrom(s, 0))) == Quote(s)
  {
    hide PrintedFrom, EscapeFrom, AllWritten;
    assert [] + StringText(PrintedFrom(s, 0)) == StringText(PrintedFrom(s, 0));
  }

  lemma ArrayWrites(items: seq<Value>, num: Text -> bool)
    requires Plain(Arr(items))
      && forall i {:trigger items[i]} :: 0 <= i < |items| ==> Plain(items[i]) && Written1(items[i], num)
    ensures var t := TreeOf(Arr(items));
      IsTree(t, num) && TextOf(t) == Write(Arr(items)) && Denotes(t, num) == Arr(items)
  {
    hide Write, PrintedFrom;
    var es := TreeOf(Arr(items)).elems;
    assert forall i {:trigger es[i]} ::
      0 <= i < |es| ==> es[i] == Elem([], TreeOf(items[i])) && Plain(items[i]) && Written1(items[i], num);
    ValuesOf(items, es, |items|, num);
    assert items[..|items|] == items && es[..|items|] == es;
    if items != [] { RestOf(items, es, 1, num); }
    ArrayText(items, es, num);
  }

  lemma {:induction false} ValuesOf(items: seq<Value>, es: seq<Elem>, n: nat, num: Text -> bool)
    requires n <= |items| == |es| && AreElems(es, num)
    requires forall i {:trigger es[i]} :: 0 <= i < |es| ==> Denotes(es[i].tree, num) == items[i]
    ensures Values(es[..n], num) == items[..n]
  {
    hide IsTree, Denotes;
    if n > 0 {
      ValuesOf(items, es, n - 1, num);
      assert es[..n][..n - 1] == es[..n - 1] && items[..n] == items[..n - 1] + [items[n - 1]];
    }
  }

  lemma {:induction false} RestOf(items: seq<Value>, es: seq<Elem>, n: nat, num: Text -> bool)
    requires 0 < n <= |items| == |es|
    requires forall i {:trigger es[i]} :: 0 <= i < |es| ==> es[i].comma == [] && TextOf(es[i].tree) == Write(items[i])
    ensures RestText(es[n..]) == ItemsFrom(items, n)
    decreases |items| - n
  {
    hide TextOf, Write;
    if n < |items| {
      RestOf(items, es, n + 1, num);
      assert es[n..][1..] == es[n + 1..];
    }
  }

  lemma ArrayText(items: seq<Value>, es: seq<Elem>, num: Text -> bool)
    requires |items| == |es|
      && (items != [] ==> TextOf(es[0].tree) == Write(items[0]) && RestText(es[1..]) == ItemsFrom(items, 1))
    ensures TextOf(Array([], es, [])) == Write(Arr(items))
  {
    hide RestText;
    assert ElemsText(es) == ItemsFrom(items, 0);
    assert [] + ([91] + (ElemsText(es) + ([] + [93]))) == [91] + ItemsFrom(items, 0) + [93];
  }

  /** A member as the printer writes it. */
  ghost predicate PrintedEntry(m: Member, e: Entry, num: Text -> bool) {
    && e.comma == [] && e.quote == [] && e.colon == [] && e.key == PrintedFrom(m.key, 0)
    && IsTree(e.tree, num) && TextOf(e.tree) == Write(m.val) && Denotes(e.tree, num) == m.val
  }

  lemma EntryWrites(m: Member, e: Entry, num: Text -> bool)
    requires PrintedEntry(m, e, num)
    ensures IsEntry(e, num) && EntryText(e) == WriteMember(m) && AllMeaning(e.key) == m.key
  {
    hide IsTree, TextOf, Denotes, Write, PrintedFrom, EscapeFrom, AllWritten, AllMeaning, AllItems;
    PrintedAll(m.key, 0);
    CharsWrite(m.key);
    assert m.key[0..] == m.key;
    assert EntryText(e) == [] + (StringText(e.key) + ([] + ([58] + TextOf(e.tree))));
    assert Quote(m.key) + [58] + Write(m.val) == Quote(m.key) + ([58] + Write(m.val));
  }

  lemma ObjectWrites(ms: seq<Member>, num: Text -> bool)
    requires Plain(Obj(ms))
      && forall i {:trigger ms[i]} :: 0 <= i < |ms| ==> Plain(ms[i].val) && Written1(ms[i].val, num)
    ensures var t := TreeOf(Obj(ms)); IsTree(t, num) && TextOf(t) == Write(Obj(ms)) && Denotes(t, num) == Obj(ms)
  {
    hide Write, PrintedFrom, TextOf, Less;
    var es := TreeOf(Obj(ms)).entries;
    forall i {:trigger es[i]} | 0 <= i < |es|
      ensures PrintedEntry(ms[i], es[i], num) && IsEntry(es[i], num)
    {
      assert Written1(ms[i].val, num);
      EntryWrites(ms[i], es[i], num);
    }
    MembersOf(ms, es, |ms|, num);
    assert ms[..|ms|] == ms && es[..|ms|] == es;
    if ms != [] { MoreOf(ms, es, 1, num); }
    ObjectText(ms, es, num);
  }

  lemma {:induction false} MembersOf(ms: seq<Member>, es: seq<Entry>, n: nat, num: Text -> bool)
    requires n <= |ms| == |es| && AreEntries(es, num) && Sorted(ms)
    requires forall i {:trigger es[i]} :: 0 <= i < |es| ==> PrintedEntry(ms[i], es[i], num)
    ensures Members(es[..n], num) == ms[..n]
  {
    hide IsEntry, Denotes, PrintedEntry, Less, Insert, AllMeaning;
    if n > 0 {
      MembersOf(ms, es, n - 1, num);
      assert es[..n][..n - 1] == es[..n - 1] && ms[..n] == ms[..n - 1] + [ms[n - 1]];
      assert PrintedEntry(ms[n - 1], es[n - 1], num);
      EntryWrites(ms[n - 1], es[n - 1], num);
      PrintedDenotes(ms[n - 1], es[n - 1], num);
      InsertLast(ms[..n - 1], ms[n - 1].key, ms[n - 1].val);
    }
  }

  lemma PrintedDenotes(m: Member, e: Entry, num: Text -> bool)
    requires PrintedEntry(m, e, num)
    ensures IsTree(e.tree, num) && Denotes(e.tree, num) == m.val
  {
  }

  lemma {:induction false} MoreOf(ms: seq<Member>, es: seq<Entry>, n: nat, num: Text -> bool)
    requires 0 < n <= |ms| == |es|
    requires forall i {:trigger es[i]} :: 0 <= i < |es| ==> PrintedEntry(ms[i], es[i], num)
    ensures MoreText(es[n..]) == MembersFrom(ms, n)
    decreases |ms| - n
  {
    hide EntryText, WriteMember;
    if n < |ms| {
      MoreOf(ms, es, n + 1, num);
      assert es[n..][1..] == es[n + 1..];
      assert PrintedEntry(ms[n], es[n], num);
      EntryWrites(ms[n], es[n], num);
    }
  }

  lemma ObjectText(ms: seq<Member>, es: seq<Entry>, num: Text -> bool)
    requires |ms| == |es| && (ms != [] ==> PrintedEntry(ms[0], es[0], num) && MoreText(es[1..]) == MembersFrom(ms, 1))
    ensures TextOf(Object([], es, [])) == Write(Obj(ms))
  {
    hide MoreText, EntryText, WriteMember, PrintedEntry;
    if ms != [] { EntryWrites(ms[0], es[0], num); }
    assert EntriesText(es) == MembersFrom(ms, 0);
    assert [] + ([123] + (EntriesText(es) + ([] + [125]))) == [123] + MembersFrom(ms, 0) + [125];
  }

  /** Serialize, then parse: the same value, and the cursor exactly at the end. */
  method RoundTrip(v: Value, after: Text, num: Text -> bool) returns (text: Text, ok: bool, v': Value, end: nat)
    requires Plain(v)
    ensures text == Write(v)
    ensures ok && v' == v && end == |text|
  {
    hide Write, Plain, TextOf, IsTree, Denotes;
    text := Serialize(v, []);
    assert [] + Write(v) == Write(v);
    TreeOfWrites(v, num);
    assert At(text + after, 0, text) by { assert (text + after)[0..] == text + after; }
    assert Reads(text + after, 0, TreeOf(v), num);
    ok, v', end := ParseText(text + after, num);
  }
}
