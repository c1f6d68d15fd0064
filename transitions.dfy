/** How single characters and short runs of characters move the parser of
    config_file_parser::parse: the errors it throws, the headers it collects,
    the includes it opens, how a value is folded over continuation lines,
    and what the end of input commits. */
module Transitions {
  import opened ConfigText
  import opened HeaderSet
  import opened ConfigStore
  import opened Automaton

  // ---------------------------------------------------------------------------
  // keys and separators

  /** Whitespace between a key and its ':' or '=' is rejected: "k = v" is an
      error at the blank, reported with the counters already moved. */
  lemma SpaceBeforeSeparator(d: Dialect, path: string, m: Machine, c: char)
    requires m.s == InKeyValKey && IsSpace(c) && Indexed(m.store)
    ensures Step(d, path, m, c) ==
      Throw(Syntax(Advance(m, c).l, Advance(m, c).pos, "key/value", Quote(c), path))
  {
  }

  /** ':' and '=' both end a key, and the value is stamped with the line and
      the position of that separator. */
  lemma SeparatorPosition(d: Dialect, path: string, m: Machine, c: char)
    requires m.s == InKeyValKey && (c == ':' || c == '=') && Indexed(m.store)
    ensures Step(d, path, m, c) ==
      Next(m.(pos := m.pos + 1, valLine := m.l, valPos := m.pos + 1, s := AwKeyValVal))
  {
  }

  /** A key read at the top level before any header opens the section "". */
  lemma KeyBeforeHeader(d: Dialect, path: string, m: Machine, c: char)
    requires m.s == Idle && m.headers == [] && IsKeyChar(c) && Indexed(m.store)
    ensures Step(d, path, m, c) ==
      Next(m.(pos := m.pos + 1, headers := [""], tmp := m.tmp + [c], s := InKeyValKey))
  {
    assert Insert([], "") == [""];
  }

  /** Any other character at the top level is "header or key" error. */
  lemma TopLevelError(d: Dialect, path: string, m: Machine, c: char)
    requires m.s == Idle && !IsSpace(c) && !IsKeyChar(c) && c != '[' && (c == '<' ==> d == Legacy)
    requires Indexed(m.store)
    ensures Step(d, path, m, c) == Throw(Syntax(m.l, m.pos + 1, "header or key", Quote(c), path))
  {
  }

  // ---------------------------------------------------------------------------
  // headers

  /** '[' at the top level flushes the pending block into every pending
      header and starts a header group with nothing pending. */
  lemma HeaderOpens(d: Dialect, path: string, m: Machine)
    requires m.s == Idle && m.tmp == "" && Indexed(m.store)
    ensures Step(d, path, m, '[') ==
      Next(Machine(InHead, [], map[], "", "", m.l, m.pos + 1, m.valLine, m.valPos,
                   Flush(m.store, m.headers, m.curKV)))
  {
  }

  /** A header group must name a header first and after every ','. */
  lemma HeaderNameRequired(d: Dialect, path: string, m: Machine, c: char)
    requires m.s == InHead && !IsSpace(c) && !IsKeyChar(c) && Indexed(m.store)
    ensures Step(d, path, m, c) == Throw(Syntax(m.l, m.pos + 1, "header name", Quote(c), path))
  {
  }

  /** After a header name only ',' or ']' may follow ("[a b]" fails at 'b'). */
  lemma HeaderEndRequired(d: Dialect, path: string, m: Machine, c: char)
    requires m.s == InHeadKey || m.s == InHeadAwComOrEnd
    requires !IsSpace(c) && c != ',' && c != ']' && (m.s == InHeadKey ==> !IsKeyChar(c))
    requires Indexed(m.store)
    ensures Step(d, path, m, c) ==
      Throw(Syntax(m.l, m.pos + 1, "next header oder header end", Quote(c), path))
  {
  }

  /** ',' and ']' add the name read to the pending set; ']' returns to the top level. */
  lemma HeaderNameEnds(d: Dialect, path: string, m: Machine, c: char)
    requires m.s == InHeadKey || m.s == InHeadAwComOrEnd
    requires c == ',' || c == ']'
    requires Indexed(m.store)
    ensures Step(d, path, m, c) ==
      Next(m.(pos := m.pos + 1, headers := Insert(m.headers, m.tmp), tmp := "",
              s := if c == ',' then InHead else Idle))
    ensures m.tmp in Step(d, path, m, c).m.headers
  {
  }

  // ---------------------------------------------------------------------------
  // includes

  /** '<' flushes like '[' and starts collecting a path. */
  lemma IncludeOpens(path: string, m: Machine)
    requires m.s == Idle && m.tmp == "" && Indexed(m.store)
    ensures Step(Current, path, m, '<') ==
      Next(Machine(InInc, [], map[], "", "", m.l, m.pos + 1, m.valLine, m.valPos,
                   Flush(m.store, m.headers, m.curKV)))
  {
  }

  /** Inside "<...>" every character but a line break and '>' is part of the path. */
  lemma IncludePath(d: Dialect, path: string, m: Machine, c: char)
    requires m.s == InInc && c != '\n' && c != '>' && Indexed(m.store)
    ensures Step(d, path, m, c) == Next(m.(pos := m.pos + 1, tmp := m.tmp + [c]))
  {
  }

  /** A run of path characters is collected verbatim. */
  lemma {:induction false} IncludePathRun(d: Dialect, path: string, m: Machine, cs: string)
    requires m.s == InInc && '\n' !in cs && '>' !in cs && Indexed(m.store)
    ensures Steps(d, path, m, cs) == Next(m.(pos := m.pos + |cs|, tmp := m.tmp + cs))
    decreases |cs|
  {
    if cs != [] {
      var m1 := m.(pos := m.pos + 1, tmp := m.tmp + [cs[0]]);
      IncludePath(d, path, m, cs[0]);
      IncludePathRun(d, path, m1, cs[1..]);
      assert m1.tmp + cs[1..] == m.tmp + cs;
    }
  }

  /** '>' hands the path, resolved against the current file, to parse(path). */
  lemma IncludeCloses(d: Dialect, path: string, m: Machine)
    requires m.s == InInc && Indexed(m.store)
    ensures Step(d, path, m, '>') ==
      Include(m.(pos := m.pos + 1, tmp := "", s := Idle), RelPath(m.tmp, path))
  {
  }

  /** An include must close on its own line. */
  lemma IncludeUnclosed(d: Dialect, path: string, m: Machine)
    requires m.s == InInc && Indexed(m.store)
    ensures Step(d, path, m, '\n') == Throw(Syntax(m.l + 1, 1, ">", "<newline>", path))
  {
  }

  /** The included file is parsed into the same store; its exception, or a
      missing file, ends the including parse with what was merged so far. */
  lemma IncludeParsed(d: Dialect, files: map<string, string>, input: string, path: string, fuel: nat,
                      i: nat, m: Machine)
    requires i < |input| && input[i] == '>' && m.s == InInc && fuel > 0 && Indexed(m.store)
    ensures var target := RelPath(m.tmp, path);
      var o := ParseFile(d, files, target, fuel - 1, m.store);
      && (target !in files ==> Scan(d, files, input, path, fuel, i, m) == Outcome(m.store, Some(FileAccess(target))))
      && (o.error.Some? ==> Scan(d, files, input, path, fuel, i, m) == o)
      && (o.error.None? ==>
            (Scan(d, files, input, path, fuel, i, m) ==
             Scan(d, files, input, path, fuel, i + 1,
                  Machine(Idle, m.headers, m.curKV, "", m.tmp2, m.l, m.pos + 1, m.valLine, m.valPos, o.store))))
  {
    IncludeCloses(d, path, m);
  }

  // ---------------------------------------------------------------------------
  // the legacy parser

  /** The legacy parser knows no includes: '<' at the top level is an error. */
  lemma LegacyRejectsInclude(path: string, m: Machine)
    requires m.s == Idle && Indexed(m.store)
    ensures Step(Legacy, path, m, '<') == Throw(Syntax(m.l, m.pos + 1, "header or key", "'<'", path))
  {
    assert Quote('<') == "'<'";
  }

  /** ... so it never reaches IN_INC and never asks for a file. */
  lemma LegacyStep(path: string, m: Machine, c: char)
    requires m.s != InInc && Indexed(m.store)
    ensures !Step(Legacy, path, m, c).Include?
    ensures Step(Legacy, path, m, c).Next? ==> Step(Legacy, path, m, c).m.s != InInc
  {
  }

  /** A legacy parse does not depend on the include depth. */
  lemma {:induction false} LegacyScanFuel(files: map<string, string>, input: string, path: string, fuel: nat,
                                          i: nat, m: Machine)
    requires i <= |input| && m.s != InInc && Indexed(m.store)
    ensures Scan(Legacy, files, input, path, fuel, i, m) == Scan(Legacy, files, input, path, 0, i, m)
    decreases |input| - i
  {
    if i < |input| {
      var c, j := Read(input, i).0, Read(input, i).1;
      LegacyStep(path, m, c);
      var r := Step(Legacy, path, m, c);
      if r.Next? {
        LegacyScanFuel(files, input, path, fuel, j, r.m);
      }
    }
  }

  lemma LegacyFileFuel(files: map<string, string>, path: string, fuel: nat, st: Store)
    requires Indexed(st)
    ensures ParseFile(Legacy, files, path, fuel, st) == ParseFile(Legacy, files, path, 0, st)
  {
    if path in files {
      LegacyScanFuel(files, files[path], path, fuel, 0, Start(st));
    }
  }

  // ---------------------------------------------------------------------------
  // values

  /** The text of a value after its separator: tmp2 with c appended, a line
      break ending the line, leading blanks skipped. */
  lemma ValueStarts(d: Dialect, path: string, m: Machine, c: char)
    requires m.s == AwKeyValVal && Indexed(m.store)
    ensures c == '\r' || c == '\n' ==> Step(d, path, m, c) == Next(Advance(m, c).(s := InKeyValValHang))
    ensures IsSpace(c) && c != '\r' && c != '\n' ==> Step(d, path, m, c) == Next(m.(pos := m.pos + 1))
    ensures !IsSpace(c) ==> Step(d, path, m, c) == Next(m.(pos := m.pos + 1, tmp2 := m.tmp2 + [c], s := InKeyValVal))
  {
  }

  /** The characters of a value are what a separator-and-line-break-free run
      of input is made of, inner blanks included. */
  function Steps(d: Dialect, path: string, m: Machine, cs: string): (r: StepResult)
    requires Indexed(m.store)
    ensures r.Next? || r.Include? ==> Indexed(r.m.store)
    decreases |cs|
  {
    if cs == [] then Next(m)
    else
      var r := Step(d, path, m, cs[0]);
      if r.Next? then Steps(d, path, r.m, cs[1..]) else r
  }

  /** The loop runs Steps over any comment-free stretch of input: from i in
      machine m to j in machine m2. */
  lemma {:induction false} ScanSteps(d: Dialect, files: map<string, string>, input: string, path: string,
                                     fuel: nat, i: nat, cs: string, m: Machine, j: nat, m2: Machine)
    requires j == i + |cs| && j <= |input| && Indexed(m.store)
    requires input[i..j] == cs && '#' !in cs
    requires Steps(d, path, m, cs) == Next(m2)
    ensures Indexed(m2.store)
    ensures Scan(d, files, input, path, fuel, i, m) == Scan(d, files, input, path, fuel, j, m2)
    decreases |cs|
  {
    if cs != [] {
      var m1 := ScanHead(d, files, input, path, fuel, i, cs, m);
      assert input[i + 1..j] == cs[1..];
      ScanSteps(d, files, input, path, fuel, i + 1, cs[1..], m1, j, m2);
    }
  }

  /** The first character of the stretch, read and stepped. */
  lemma ScanHead(d: Dialect, files: map<string, string>, input: string, path: string,
                 fuel: nat, i: nat, cs: string, m: Machine) returns (m1: Machine)
    requires cs != [] && i + |cs| <= |input| && Indexed(m.store)
    requires input[i..i + |cs|] == cs && '#' !in cs
    requires Steps(d, path, m, cs).Next?
    ensures Indexed(m1.store) && Steps(d, path, m1, cs[1..]) == Steps(d, path, m, cs)
    ensures Scan(d, files, input, path, fuel, i, m) == Scan(d, files, input, path, fuel, i + 1, m1)
  {
    assert input[i] == cs[0];
    assert Step(d, path, m, cs[0]).Next?;
    m1 := Step(d, path, m, cs[0]).m;
    ScanNext(d, files, input, path, fuel, i, m, m1);
  }

  predicate NoLineBreak(cs: string) {
    forall k :: 0 <= k < |cs| ==> cs[k] != '\n' && cs[k] != '\r'
  }

  /** Within a line a value collects every character verbatim. */
  lemma {:induction false} ValueLine(d: Dialect, path: string, m: Machine, cs: string)
    requires m.s == InKeyValVal && NoLineBreak(cs) && Indexed(m.store)
    ensures Steps(d, path, m, cs) == Next(m.(pos := m.pos + |cs|, tmp2 := m.tmp2 + cs))
    decreases |cs|
  {
    if cs != [] {
      var m1 := m.(pos := m.pos + 1, tmp2 := m.tmp2 + [cs[0]]);
      assert Step(d, path, m, cs[0]) == Next(m1);
      ValueLine(d, path, m1, cs[1..]);
      assert m1.tmp2 + cs[1..] == m.tmp2 + cs;
    }
  }

  /** Line breaks after a value, blank lines and comment lines included,
      leave the value open. */
  lemma {:induction false} BlankLines(d: Dialect, path: string, m: Machine, cs: string)
    requires m.s == InKeyValValHang && Indexed(m.store)
    requires forall k :: 0 <= k < |cs| ==> cs[k] == '\n' || cs[k] == '\r'
    ensures Steps(d, path, m, cs).Next?
    ensures var r := Steps(d, path, m, cs).m;
      r == m.(l := r.l, pos := r.pos) && r.l >= m.l
    decreases |cs|
  {
    if cs != [] {
      BlankLines(d, path, Advance(m, cs[0]), cs[1..]);
    }
  }

  /** Whitespace-only lines after a value leave it open as well: any run of
      whitespace moves between the two hanging states and changes nothing
      but the counters, and after a line break the value is hanging again. */
  lemma {:induction false} WhitespaceLines(d: Dialect, path: string, m: Machine, cs: string)
    requires (m.s == InKeyValValHang || m.s == InKeyValValHangEnd) && AllSpace(cs) && Indexed(m.store)
    ensures Steps(d, path, m, cs).Next?
    ensures var r := Steps(d, path, m, cs).m;
      && r == m.(l := r.l, pos := r.pos, s := r.s) && r.l >= m.l
      && (r.s == InKeyValValHang || r.s == InKeyValValHangEnd)
      && (cs != [] && (cs[|cs| - 1] == '\n' || cs[|cs| - 1] == '\r') ==> r.s == InKeyValValHang)
    decreases |cs|
  {
    if cs != [] {
      var m1 := Advance(m, cs[0]).(s := if cs[0] == '\n' || cs[0] == '\r' then InKeyValValHang else InKeyValValHangEnd);
      assert Step(d, path, m, cs[0]) == Next(m1);
      WhitespaceLines(d, path, m1, cs[1..]);
      if |cs| > 1 {
        assert cs[1..][|cs[1..]| - 1] == cs[|cs| - 1];
      }
    }
  }

  predicate IndentOnly(cs: string) {
    forall k :: 0 <= k < |cs| ==> IsSpace(cs[k]) && cs[k] != '\n' && cs[k] != '\r'
  }

  /** Blanks at the start of a continuation line are skipped. */
  lemma {:induction false} IndentSkipped(d: Dialect, path: string, m: Machine, ws: string)
    requires m.s == InKeyValValHangEnd && IndentOnly(ws) && Indexed(m.store)
    ensures Steps(d, path, m, ws) == Next(m.(pos := m.pos + |ws|))
    decreases |ws|
  {
    if ws != [] {
      IndentSkipped(d, path, m.(pos := m.pos + 1), ws[1..]);
    }
  }

  /** A line that starts with whitespace continues the value: its first
      non-blank character is appended after one blank (none when the value
      is still empty), whatever the indentation. */
  lemma ContinuationLine(d: Dialect, path: string, m: Machine, ws: string, c: char)
    requires m.s == InKeyValValHang && |ws| > 0 && IndentOnly(ws) && !IsSpace(c) && Indexed(m.store)
    ensures Steps(d, path, m, ws + [c]) ==
      Next(m.(pos := m.pos + |ws| + 1, tmp2 := (if m.tmp2 == "" then "" else m.tmp2 + " ") + [c],
              s := InKeyValVal))
  {
    var m1 := m.(pos := m.pos + 1, s := InKeyValValHangEnd);
    assert Step(d, path, m, ws[0]) == Next(m1);
    assert (ws + [c])[1..] == ws[1..] + [c];
    IndentSkipped(d, path, m1, ws[1..]);
    StepsAppend(d, path, m1, ws[1..], [c]);
  }

  lemma {:induction false} StepsAppend(d: Dialect, path: string, m: Machine, xs: string, ys: string)
    requires Indexed(m.store) && Steps(d, path, m, xs).Next?
    ensures Steps(d, path, m, xs + ys) == Steps(d, path, Steps(d, path, m, xs).m, ys)
    decreases |xs|
  {
    if xs != [] {
      assert Step(d, path, m, xs[0]).Next?;
      var m1 := Step(d, path, m, xs[0]).m;
      assert (xs + ys)[0] == xs[0] && (xs + ys)[1..] == xs[1..] + ys;
      assert Steps(d, path, m, xs + ys) == Steps(d, path, m1, xs[1..] + ys);
      assert Steps(d, path, m, xs) == Steps(d, path, m1, xs[1..]);
      StepsAppend(d, path, m1, xs[1..], ys);
    } else {
      assert xs + ys == ys;
    }
  }

  /** A key at the start of a line ends the pending value: it is stored
      trimmed under its key, and the new key begins. */
  lemma NextKey(d: Dialect, path: string, m: Machine, c: char)
    requires m.s == InKeyValValHang && IsKeyChar(c) && Indexed(m.store)
    ensures Step(d, path, m, c) ==
      Next(m.(pos := m.pos + 1, curKV := m.curKV[m.tmp := Val(Trim(m.tmp2), m.valLine, m.valPos, path)],
              tmp := [c], tmp2 := "", s := InKeyValKey))
  {
  }

  /** A header at the start of a line stores the pending value trimmed, then
      flushes the block. */
  lemma NextHeader(d: Dialect, path: string, m: Machine)
    requires m.s == InKeyValValHang && Indexed(m.store)
    ensures Step(d, path, m, '[') ==
      Next(Machine(InHead, [], map[], "", "", m.l, m.pos + 1, m.valLine, m.valPos,
                   Flush(m.store, m.headers, m.curKV[m.tmp := Val(Trim(m.tmp2), m.valLine, m.valPos, path)])))
  {
  }

  /** Any other character at the start of a line (a '<', say) is appended to
      the value as on a continuation line. */
  lemma LineStartOther(d: Dialect, path: string, m: Machine, c: char)
    requires m.s == InKeyValValHang && !IsSpace(c) && !IsKeyChar(c) && c != '[' && Indexed(m.store)
    ensures Step(d, path, m, c) ==
      Next(m.(pos := m.pos + 1, tmp2 := (if m.tmp2 == "" then "" else m.tmp2 + " ") + [c], s := InKeyValVal))
  {
  }

  // ---------------------------------------------------------------------------
  // the end of input

  /** Input may end only at the top level or in a value. */
  lemma EndRejected(path: string, m: Machine)
    requires !AcceptsEnd(m.s) && Indexed(m.store)
    ensures Finish(path, m) == Outcome(m.store, Some(Syntax(m.l, m.pos, "character", "<EOF>", path)))
  {
  }

  /** A value running to the end of input is stored as read, untrimmed, in
      every pending section, which all exist afterwards. */
  lemma EndCommitsUntrimmed(path: string, m: Machine)
    requires AcceptsEnd(m.s) && m.tmp != "" && m.tmp2 != "" && OneToOne(m.store)
    ensures Finish(path, m).error.None?
    ensures var secs := Sections(Finish(path, m).store);
      forall h :: h in m.headers ==>
        (h in secs && m.tmp in secs[h] && secs[h][m.tmp] == Val(m.tmp2, m.valLine, m.valPos, path))
  {
    var block := m.curKV[m.tmp := Val(m.tmp2, m.valLine, m.valPos, path)];
    FlushSections(m.store, m.headers, block);
  }

  /** An empty value at the end of input is dropped; the pending block is
      still flushed, and every pending header becomes a section. */
  lemma EndDropsEmpty(path: string, m: Machine)
    requires AcceptsEnd(m.s) && (m.tmp == "" || m.tmp2 == "") && OneToOne(m.store)
    ensures Finish(path, m) == Outcome(Flush(m.store, m.headers, m.curKV), None)
    ensures forall h :: h in m.headers ==> h in Sections(Finish(path, m).store)
  {
    FlushSections(m.store, m.headers, m.curKV);
  }

  // ---------------------------------------------------------------------------
  // repeated keys

  /** A later block wins: updateVals overwrites every key it brings and keeps
      the others. */
  lemma LaterBlockWins(st: Store, hs: seq<string>, block: KeyVals, h: string, k: string)
    requires OneToOne(st) && h in hs
    ensures var secs := Sections(Flush(st, hs, block));
      && (k in block ==> k in secs[h] && secs[h][k] == block[k])
      && (k !in block && h in Sections(st) && k in Sections(st)[h] ==> k in secs[h] && secs[h][k] == Sections(st)[h][k])
  {
    FlushSections(st, hs, block);
  }
}
