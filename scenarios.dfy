/** Whole parses of short inputs, worked out character by character. */
module Scenarios {
  import opened ConfigText
  import opened ConfigStore
  import HeaderSet
  import opened Automaton
  import opened Transitions

  const F: string := "a.conf"

  /** "k = v": the blank after the key is an error at line 1, position 2,
      and nothing is stored. */
  lemma BlankBeforeSeparator()
    ensures ParseText(Current, map[], "k = v", F, 0, EmptyStore) ==
      Outcome(EmptyStore, Some(Syntax(1, 2, "key/value", "' '", F)))
  {
    var input := "k = v";
    var m1 := Machine(InKeyValKey, [""], map[], "k", "", 1, 1, 0, 0, EmptyStore);
    KeyBeforeHeader(Current, F, Start(EmptyStore), 'k');
    ScanNext(Current, map[], input, F, 0, 0, Start(EmptyStore), m1);
    SpaceBeforeSeparator(Current, F, m1, ' ');
    assert input[1] == ' ' && Quote(' ') == "' '";
    ScanThrow(Current, map[], input, F, 0, 1, m1, Syntax(1, 2, "key/value", "' '", F));
  }

  /** The legacy parser stops at an include directive. */
  lemma LegacyInclude()
    ensures ParseText(Legacy, map[], "<b.conf>", F, 0, EmptyStore) ==
      Outcome(EmptyStore, Some(Syntax(1, 1, "header or key", "'<'", F)))
  {
    LegacyRejectsInclude(F, Start(EmptyStore));
    ScanThrow(Legacy, map[], "<b.conf>", F, 0, 0, Start(EmptyStore), Syntax(1, 1, "header or key", "'<'", F));
  }

  /** The machine after reading the key "k" and its separator, ':' or '=',
      at the start of the input. */
  lemma KeyAndColon(d: Dialect, files: map<string, string>, input: string, f: string, fuel: nat)
    requires |input| >= 2 && input[0] == 'k' && (input[1] == ':' || input[1] == '=')
    ensures Scan(d, files, input, f, fuel, 0, Start(EmptyStore)) ==
      Scan(d, files, input, f, fuel, 2, Machine(AwKeyValVal, [""], map[], "k", "", 1, 2, 1, 2, EmptyStore))
  {
    var m1 := Machine(InKeyValKey, [""], map[], "k", "", 1, 1, 0, 0, EmptyStore);
    KeyBeforeHeader(d, f, Start(EmptyStore), 'k');
    ScanNext(d, files, input, f, fuel, 0, Start(EmptyStore), m1);
    SeparatorPosition(d, f, m1, input[1]);
    ScanNext(d, files, input, f, fuel, 1, m1, Machine(AwKeyValVal, [""], map[], "k", "", 1, 2, 1, 2, EmptyStore));
  }

  /** "k: v": the value, its blank skipped, lands in the section "" with the
      position of the ':'. */
  lemma OneValue(files: map<string, string>, f: string, fuel: nat)
    ensures ParseText(Current, files, "k: v", f, fuel, EmptyStore) ==
      Outcome(Store(map["" := 0], [map["k" := Val("v", 1, 2, f)]]), None)
  {
    var input := "k: v";
    KeyAndColon(Current, files, input, f, fuel);
    var m2 := Machine(AwKeyValVal, [""], map[], "k", "", 1, 2, 1, 2, EmptyStore);
    var m3 := m2.(pos := 3);
    var m4 := m3.(pos := 4, tmp2 := "v", s := InKeyValVal);
    ValueStarts(Current, f, m2, ' ');
    ScanNext(Current, files, input, f, fuel, 2, m2, m3);
    ValueStarts(Current, f, m3, 'v');
    ScanNext(Current, files, input, f, fuel, 3, m3, m4);
    ScanEnd(Current, files, input, f, fuel, m4);
  }

  /** "k:" alone: the input may not end right after a separator. */
  lemma EndAfterSeparator()
    ensures ParseText(Current, map[], "k:", F, 0, EmptyStore) ==
      Outcome(EmptyStore, Some(Syntax(1, 2, "character", "<EOF>", F)))
  {
    var input := "k:";
    KeyAndColon(Current, map[], input, F, 0);
    ScanEnd(Current, map[], input, F, 0, Machine(AwKeyValVal, [""], map[], "k", "", 1, 2, 1, 2, EmptyStore));
  }

  /** "k:\n": an empty value at the end of input is dropped, but its section exists. */
  lemma EmptyValueDropped()
    ensures ParseText(Current, map[], "k:\n", F, 0, EmptyStore) ==
      Outcome(Store(map["" := 0], [map[]]), None)
  {
    var input := "k:\n";
    KeyAndColon(Current, map[], input, F, 0);
    var m2 := Machine(AwKeyValVal, [""], map[], "k", "", 1, 2, 1, 2, EmptyStore);
    var m3 := m2.(l := 2, pos := 1, s := InKeyValValHang);
    ValueStarts(Current, F, m2, '\n');
    ScanNext(Current, map[], input, F, 0, 2, m2, m3);
    ScanEnd(Current, map[], input, F, 0, m3);
  }

  /** "k: a\n b": the indented line continues the value with one blank. */
  lemma Continued()
    ensures ParseText(Current, map[], "k: a\n b", F, 0, EmptyStore) ==
      Outcome(Store(map["" := 0], [map["k" := Val("a b", 1, 2, F)]]), None)
  {
    var input := "k: a\n b";
    KeyAndColon(Current, map[], input, F, 0);
    var m2 := Machine(AwKeyValVal, [""], map[], "k", "", 1, 2, 1, 2, EmptyStore);
    var m3 := m2.(pos := 3);
    var m4 := m3.(pos := 4, tmp2 := "a", s := InKeyValVal);
    ValueStarts(Current, F, m2, ' ');
    ScanNext(Current, map[], input, F, 0, 2, m2, m3);
    ValueStarts(Current, F, m3, 'a');
    ScanNext(Current, map[], input, F, 0, 3, m3, m4);
    ContinuedTail(input, m4);
  }

  /** The second line of "k: a\n b", read after the value "a". */
  lemma ContinuedTail(input: string, m4: Machine)
    requires input == "k: a\n b"
    requires m4 == Machine(InKeyValVal, [""], map[], "k", "a", 1, 4, 1, 2, EmptyStore)
    ensures Scan(Current, map[], input, F, 0, 4, m4) ==
      Outcome(Store(map["" := 0], [map["k" := Val("a b", 1, 2, F)]]), None)
  {
    var m5 := m4.(l := 2, pos := 1, s := InKeyValValHang);
    var m6 := m5.(pos := 2, s := InKeyValValHangEnd);
    var m7 := m6.(pos := 3, tmp2 := "a b", s := InKeyValVal);
    ScanNext(Current, map[], input, F, 0, 4, m4, m5);
    ScanNext(Current, map[], input, F, 0, 5, m5, m6);
    assert "a" + " " + ['b'] == "a b";
    ScanNext(Current, map[], input, F, 0, 6, m6, m7);
    ScanEnd(Current, map[], input, F, 0, m7);
  }

  /** "<b.conf>" in a.conf: the included file is parsed into the same store,
      under its own name, and the including file goes on after the '>'. */
  lemma Included()
    ensures ParseText(Current, IncludedFiles, "<b.conf>", F, 1, EmptyStore) ==
      Outcome(Store(map["" := 0], [map["k" := Val("v", 1, 2, "b.conf")]]), None)
  {
    IncludeHead();
    IncludeTail();
  }

  const IncludedFiles: map<string, string> := map["b.conf" := "k: v"]

  /** Up to the '>': the path collected. */
  lemma IncludeHead()
    ensures Scan(Current, IncludedFiles, "<b.conf>", F, 1, 0, Start(EmptyStore)) ==
      Scan(Current, IncludedFiles, "<b.conf>", F, 1, 7, Machine(InInc, [], map[], "b.conf", "", 1, 7, 0, 0, EmptyStore))
  {
    var m0 := Start(EmptyStore);
    var m1 := Machine(InInc, [], map[], "", "", 1, 1, 0, 0, EmptyStore);
    IncludeOpens(F, m0);
    assert Flush(EmptyStore, [], map[]) == EmptyStore;
    ScanNext(Current, IncludedFiles, "<b.conf>", F, 1, 0, m0, m1);
    IncludePathRead();
  }

  lemma IncludePathRead()
    ensures Scan(Current, IncludedFiles, "<b.conf>", F, 1, 1, Machine(InInc, [], map[], "", "", 1, 1, 0, 0, EmptyStore)) ==
      Scan(Current, IncludedFiles, "<b.conf>", F, 1, 7, Machine(InInc, [], map[], "b.conf", "", 1, 7, 0, 0, EmptyStore))
  {
    var input := "<b.conf>";
    var m := Machine(InInc, [], map[], "", "", 1, 1, 0, 0, EmptyStore);
    var i := 1;
    while i < 7
      invariant 1 <= i <= 7
      invariant m == Machine(InInc, [], map[], input[1..i], "", 1, i, 0, 0, EmptyStore) && Indexed(m.store)
      invariant Scan(Current, IncludedFiles, input, F, 1, 1, Machine(InInc, [], map[], "", "", 1, 1, 0, 0, EmptyStore)) ==
        Scan(Current, IncludedFiles, input, F, 1, i, m)
    {
      var m1 := PathChar(input, i, m);
      m, i := m1, i + 1;
    }
    assert input[1..7] == "b.conf";
  }

  /** One character of the path "b.conf". */
  lemma PathChar(input: string, i: nat, m: Machine) returns (m1: Machine)
    requires input == "<b.conf>" && 1 <= i < 7
    requires m == Machine(InInc, [], map[], input[1..i], "", 1, i, 0, 0, EmptyStore)
    ensures m1 == Machine(InInc, [], map[], input[1..i + 1], "", 1, i + 1, 0, 0, EmptyStore) && Indexed(m1.store)
    ensures Scan(Current, IncludedFiles, input, F, 1, i, m) == Scan(Current, IncludedFiles, input, F, 1, i + 1, m1)
  {
    assert Indexed(m.store);
    IncludePath(Current, F, m, input[i]);
    m1 := m.(pos := i + 1, tmp := input[1..i + 1]);
    assert m.tmp + [input[i]] == input[1..i + 1];
    ScanNext(Current, IncludedFiles, input, F, 1, i, m, m1);
  }

  /** The '>' and the end of input. */
  lemma IncludeTail()
    ensures Scan(Current, IncludedFiles, "<b.conf>", F, 1, 7, Machine(InInc, [], map[], "b.conf", "", 1, 7, 0, 0, EmptyStore)) ==
      Outcome(Store(map["" := 0], [map["k" := Val("v", 1, 2, "b.conf")]]), None)
  {
    var input := "<b.conf>";
    var m2 := Machine(InInc, [], map[], "b.conf", "", 1, 7, 0, 0, EmptyStore);
    assert RelPath("b.conf", F) == "b.conf";
    OneValue(IncludedFiles, "b.conf", 0);
    var st := Store(map["" := 0], [map["k" := Val("v", 1, 2, "b.conf")]]);
    IncludeParsed(Current, IncludedFiles, input, F, 1, 7, m2);
    ScanEnd(Current, IncludedFiles, input, F, 1, Machine(Idle, [], map[], "", "", 1, 8, 0, 0, st));
  }

  /** "k=a #c": the comment reads as a line break, and the value, committed
      at the end of input, keeps the blank before the '#' because that
      commit does not trim. */
  lemma CommentAtEnd()
    ensures ParseText(Current, map[], "k=a #c", F, 0, EmptyStore) ==
      Outcome(Store(map["" := 0], [map["k" := Val("a ", 1, 2, F)]]), None)
  {
    var input := "k=a #c";
    KeyAndColon(Current, map[], input, F, 0);
    var m2 := Machine(AwKeyValVal, [""], map[], "k", "", 1, 2, 1, 2, EmptyStore);
    var m3 := m2.(pos := 3, tmp2 := "a", s := InKeyValVal);
    ValueStarts(Current, F, m2, 'a');
    ScanNext(Current, map[], input, F, 0, 2, m2, m3);
    CommentTail(input, m3);
  }

  /** The blank, then the comment up to the end of "k=a #c". */
  lemma CommentTail(input: string, m3: Machine)
    requires input == "k=a #c"
    requires m3 == Machine(InKeyValVal, [""], map[], "k", "a", 1, 3, 1, 2, EmptyStore)
    ensures Scan(Current, map[], input, F, 0, 3, m3) ==
      Outcome(Store(map["" := 0], [map["k" := Val("a ", 1, 2, F)]]), None)
  {
    var m4 := m3.(pos := 4, tmp2 := "a ");
    assert Step(Current, F, m3, ' ') == Next(m4);
    ScanNext(Current, map[], input, F, 0, 3, m3, m4);
    assert input[4] == '#' && AfterLine(input, 5) == 6;
    var mt := m4.(l := 2, pos := 1);
    ScanTurn(Current, map[], input, F, 0, 4, m4, '\n', 6, mt);
    assert Dispatch(Current, F, mt, '\n') == Next(mt.(s := InKeyValValHang));
    ScanEnd(Current, map[], input, F, 0, mt.(s := InKeyValValHang));
  }

  /** The machine after "[s" and a line break at the start of the input: the
      header is still open, waiting for ',' or ']'. */
  lemma HeaderLineBreak(input: string)
    requires |input| >= 3 && input[0] == '[' && input[1] == 's' && input[2] == '\n'
    ensures ParseText(Current, map[], input, F, 0, EmptyStore) ==
      Scan(Current, map[], input, F, 0, 3, Machine(InHeadAwComOrEnd, [], map[], "s", "", 2, 1, 0, 0, EmptyStore))
  {
    var m1 := Machine(InHead, [], map[], "", "", 1, 1, 0, 0, EmptyStore);
    HeaderOpens(Current, F, Start(EmptyStore));
    assert Flush(EmptyStore, [], map[]) == EmptyStore;
    ScanNext(Current, map[], input, F, 0, 0, Start(EmptyStore), m1);
    HeaderNameBreak(input, m1);
  }

  /** The name "s" and the line break after it, inside an open header. */
  lemma HeaderNameBreak(input: string, m1: Machine)
    requires |input| >= 3 && input[1] == 's' && input[2] == '\n'
    requires m1 == Machine(InHead, [], map[], "", "", 1, 1, 0, 0, EmptyStore)
    ensures Scan(Current, map[], input, F, 0, 1, m1) ==
      Scan(Current, map[], input, F, 0, 3, Machine(InHeadAwComOrEnd, [], map[], "s", "", 2, 1, 0, 0, EmptyStore))
  {
    var m2 := m1.(pos := 2, tmp := "s", s := InHeadKey);
    var m3 := m2.(l := 2, pos := 1, s := InHeadAwComOrEnd);
    assert Step(Current, F, m1, 's') == Next(m2);
    ScanNext(Current, map[], input, F, 0, 1, m1, m2);
    assert Step(Current, F, m2, '\n') == Next(m3);
    ScanNext(Current, map[], input, F, 0, 2, m2, m3);
  }

  /** "[s\n": the line break inside an unclosed header is skipped as a blank,
      and the error comes at the end of input, at line 2, position 1. */
  lemma HeaderUnclosed()
    ensures ParseText(Current, map[], "[s\n", F, 0, EmptyStore) ==
      Outcome(EmptyStore, Some(Syntax(2, 1, "character", "<EOF>", F)))
  {
    var input := "[s\n";
    var m3 := Machine(InHeadAwComOrEnd, [], map[], "s", "", 2, 1, 0, 0, EmptyStore);
    HeaderLineBreak(input);
    ScanEnd(Current, map[], input, F, 0, m3);
    EndRejected(F, m3);
  }

  /** "[s\n]": a line break does not end a header; the ']' on the next line
      closes it, and the end of input leaves the section s, empty. */
  lemma HeaderContinued()
    ensures ParseText(Current, map[], "[s\n]", F, 0, EmptyStore) ==
      Outcome(Store(map["s" := 0], [map[]]), None)
  {
    var input := "[s\n]";
    var m1 := Machine(InHead, [], map[], "", "", 1, 1, 0, 0, EmptyStore);
    var m2 := m1.(pos := 2, tmp := "s", s := InHeadKey);
    var m3 := m2.(l := 2, pos := 1, s := InHeadAwComOrEnd);
    var m4 := m3.(pos := 2, headers := ["s"], tmp := "", s := Idle);
    HeaderOpens(Current, F, Start(EmptyStore));
    assert Flush(EmptyStore, [], map[]) == EmptyStore;
    ScanNext(Current, map[], input, F, 0, 0, Start(EmptyStore), m1);
    assert Step(Current, F, m1, 's') == Next(m2);
    ScanNext(Current, map[], input, F, 0, 1, m1, m2);
    assert Step(Current, F, m2, '\n') == Next(m3);
    ScanNext(Current, map[], input, F, 0, 2, m2, m3);
    HeaderNameEnds(Current, F, m3, ']');
    assert HeaderSet.Insert([], "s") == ["s"];
    ScanNext(Current, map[], input, F, 0, 3, m3, m4);
    ScanEnd(Current, map[], input, F, 0, m4);
  }

  /** "k=1\nk=2": a key repeated within one block keeps its last value, with
      the position of its own '='. */
  lemma RepeatedKey()
    ensures ParseText(Current, map[], "k=1\nk=2", F, 0, EmptyStore) ==
      Outcome(Store(map["" := 0], [map["k" := Val("2", 2, 3, F)]]), None)
  {
    var input := "k=1\nk=2";
    KeyAndColon(Current, map[], input, F, 0);
    RepeatedKeyFirst(input, Machine(AwKeyValVal, [""], map[], "k", "", 1, 2, 1, 2, EmptyStore));
  }

  /** The first value of "k=1\nk=2" and its line break, which leaves it hanging. */
  lemma RepeatedKeyFirst(input: string, m2: Machine)
    requires input == "k=1\nk=2"
    requires m2 == Machine(AwKeyValVal, [""], map[], "k", "", 1, 2, 1, 2, EmptyStore)
    ensures Scan(Current, map[], input, F, 0, 2, m2) ==
      Outcome(Store(map["" := 0], [map["k" := Val("2", 2, 3, F)]]), None)
  {
    var m3 := m2.(pos := 3, tmp2 := "1", s := InKeyValVal);
    var m4 := m3.(l := 2, pos := 1, s := InKeyValValHang);
    ValueStarts(Current, F, m2, '1');
    ScanNext(Current, map[], input, F, 0, 2, m2, m3);
    assert Step(Current, F, m3, '\n') == Next(m4);
    ScanNext(Current, map[], input, F, 0, 3, m3, m4);
    RepeatedKeyTail(input, m4);
  }

  /** The second line of "k=1\nk=2" up to its '=', read with "k" = "1" pending. */
  lemma RepeatedKeyTail(input: string, m4: Machine)
    requires input == "k=1\nk=2"
    requires m4 == Machine(InKeyValValHang, [""], map[], "k", "1", 2, 1, 1, 2, EmptyStore)
    ensures Scan(Current, map[], input, F, 0, 4, m4) ==
      Outcome(Store(map["" := 0], [map["k" := Val("2", 2, 3, F)]]), None)
  {
    var kv := map["k" := Val("1", 1, 2, F)];
    var m5 := m4.(pos := 2, curKV := kv, tmp := "k", tmp2 := "", s := InKeyValKey);
    var m6 := m5.(pos := 3, valLine := 2, valPos := 3, s := AwKeyValVal);
    NextKey(Current, F, m4, 'k');
    assert Trim("1") == "1";
    ScanNext(Current, map[], input, F, 0, 4, m4, m5);
    SeparatorPosition(Current, F, m5, '=');
    ScanNext(Current, map[], input, F, 0, 5, m5, m6);
    RepeatedKeyEnd(input, m6);
  }

  /** The last value of "k=1\nk=2" overwrites the first when the input ends. */
  lemma RepeatedKeyEnd(input: string, m6: Machine)
    requires input == "k=1\nk=2"
    requires m6 == Machine(AwKeyValVal, [""], map["k" := Val("1", 1, 2, F)], "k", "", 2, 3, 2, 3, EmptyStore)
    ensures Scan(Current, map[], input, F, 0, 6, m6) ==
      Outcome(Store(map["" := 0], [map["k" := Val("2", 2, 3, F)]]), None)
  {
    var m7 := m6.(pos := 4, tmp2 := "2", s := InKeyValVal);
    ValueStarts(Current, F, m6, '2');
    ScanNext(Current, map[], input, F, 0, 6, m6, m7);
    assert m6.curKV["k" := Val("2", 2, 3, F)] == map["k" := Val("2", 2, 3, F)];
    ScanEnd(Current, map[], input, F, 0, m7);
  }

  /** "[s\nk": after a line break inside a header, any character other than
      ',' or ']' is an error at that character. */
  lemma HeaderInterrupted()
    ensures ParseText(Current, map[], "[s\nk", F, 0, EmptyStore) ==
      Outcome(EmptyStore, Some(Syntax(2, 2, "next header oder header end", "'k'", F)))
  {
    var input := "[s\nk";
    var m3 := Machine(InHeadAwComOrEnd, [], map[], "s", "", 2, 1, 0, 0, EmptyStore);
    HeaderLineBreak(input);
    HeaderEndRequired(Current, F, m3, 'k');
    assert Quote('k') == "'k'";
    ScanThrow(Current, map[], input, F, 0, 3, m3, Syntax(2, 2, "next header oder header end", "'k'", F));
  }
}
