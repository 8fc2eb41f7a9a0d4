/** The table of two short keywords, byte by byte. */
module MinilexExample {
  import opened Bytes
  import opened MinilexTrie
  import opened MinilexTable

  /** "GE" and "H" */
  const WORDS: seq<Word> := [[71, 69], [72]]
  const TEXTS: seq<Word> := [[], [71], [71, 69], [72]]
  const STATES: seq<seq<Edge>> := [[Edge(71, 1), Edge(72, 3)], [Edge(69, 2)], [Edge(0, 0)], [Edge(1, 0)]]

  lemma TheTexts()
    ensures Texts(WORDS, 2) == TEXTS
  {
    assert Texts(WORDS, 0) == [[]];
    var w := WORDS[0];
    assert w[..1] == [71] && w[..2] == [71, 69] && WORDS[1][..1] == [72];
    assert AddWord([[]], w, 0) == [[]];
    assert AddWord([[]], w, 1) == [[], [71]];
    assert AddWord([[]], w, 2) == [[], [71], [71, 69]];
    assert Texts(WORDS, 1) == [[], [71], [71, 69]];
    assert AddWord(Texts(WORDS, 1), WORDS[1], 0) == Texts(WORDS, 1);
  }

  lemma TheStates()
    ensures States(WORDS) == STATES
  {
    hide Texts;
    TheTexts();
    RootOptions();
    NextOptions();
    assert WordNumber(WORDS, [], 2) == None && WordNumber(WORDS, [71], 2) == None;
    assert WordNumber(WORDS, [71, 69], 2) == Some(0) && WordNumber(WORDS, [72], 2) == Some(1);
  }

  lemma RootOptions()
    ensures Options(TEXTS, [], 4) == [Edge(71, 1), Edge(72, 3)]
  {
    assert Options(TEXTS, [], 1) == [];
    assert Options(TEXTS, [], 2) == [Edge(71, 1)];
    assert Options(TEXTS, [], 3) == [Edge(71, 1)];
  }

  lemma NextOptions()
    ensures Options(TEXTS, [71], 4) == [Edge(69, 2)]
  {
    assert Options(TEXTS, [71], 2) == [];
    assert Options(TEXTS, [71], 3) == [Edge(69, 2)];
  }

  lemma Places()
    ensures Pos(STATES, 0) == 0 && Pos(STATES, 1) == 4 && Pos(STATES, 2) == 6 && Pos(STATES, 3) == 8
      && Pos(STATES, 4) == 10
  {
  }

  /** The trie in order of first appearance, two bytes an option, the last option of a state marked, jumps in pairs. */
  lemma TheTable(t: seq<Byte>)
    requires Emitted(STATES, t) && |t| == 10
    ensures t == [0x47, 2, 0xc8, 3, 0xc5, 1, 0x80, 0, 0x81, 0]
  {
    hide Pos;
    Places();
    assert StateAt(STATES, t, 0) && StateAt(STATES, t, 1) && StateAt(STATES, t, 2) && StateAt(STATES, t, 3);
    assert OptionAt(STATES, t, 0, 0) && OptionAt(STATES, t, 0, 1);
    assert OptionAt(STATES, t, 1, 0) && OptionAt(STATES, t, 2, 0) && OptionAt(STATES, t, 3, 0);
  }

  lemma AreWords()
    ensures PrefixFree(WORDS)
  {
    assert |WORDS| == 2 && WORDS[0] == [71, 69] && WORDS[1] == [72];
    assert IsWord(WORDS[0]) && IsWord(WORDS[1]);
    assert !([71, 69] <= [72]);
    assert [72][0] != [71, 69][0];
    assert !([72] <= [71, 69]);
  }

  /** Compiling the two keywords. */
  method Compile() returns (table: Option<seq<Byte>>)
    ensures table == Some([0x47, 2, 0xc8, 3, 0xc5, 1, 0x80, 0, 0x81, 0])
  {
    hide PrefixFree, Trie, Emitted, Fits, States, Texts, InOrder;
    AreWords();
    var st, path := Build(WORDS);
    BuiltStates(WORDS, st, path);
    TheStates();
    ItFits();
    table := Emit(WORDS, st, path);
    Places();
    TheTable(table.value);
  }

  lemma ItFits()
    ensures Fits(STATES)
  {
    hide Pos;
    Places();
  }
}
