/** The character-driven parser of config_file_parser::parse(istream, path)
    as a pure specification: one transition per character read, the
    end-of-input step, and the recursion into included files. The legacy
    ConfigFileParser::parse(path) is the same automaton without the include
    directive (dialect Legacy). */
module Automaton {
  import opened ConfigText
  import opened HeaderSet
  import opened ConfigStore

  /** The ten states of the enum; Idle is NONE. */
  datatype State =
    | Idle
    | InHead
    | InInc
    | InHeadKey
    | InHeadAwComOrEnd
    | InKeyValKey
    | InKeyValVal
    | AwKeyValVal
    | InKeyValValHang
    | InKeyValValHangEnd

  /** Current: src/config_file_parser.cpp, with "<path>" includes.
      Legacy: ConfigFileParser.cpp, where '<' is an ordinary bad character. */
  datatype Dialect = Current | Legacy

  datatype ParseError =
    /** parse_exception / ParseExc: line, position, what was expected, what was found, file. */
    | Syntax(line: nat, pos: nat, expected: string, found: string, file: string)
    /** parse_file_exception / ParseFileExc: the file could not be opened. */
    | FileAccess(file: string)
    /** The include depth given to the model ran out at this include target. */
    | IncludeDepth(file: string)

  /** The locals of one parse call (s, headers, curKV, tmp, tmp2, l, pos,
      valLine, valPos) and the parser's fields. */
  datatype Machine = Machine(
    s: State,
    headers: seq<string>,
    curKV: KeyVals,
    tmp: string,
    tmp2: string,
    l: nat,
    pos: nat,
    valLine: nat,
    valPos: nat,
    store: Store)

  function Start(st: Store): Machine {
    Machine(Idle, [], map[], "", "", 1, 0, 0, 0, st)
  }

  datatype StepResult =
    | Next(m: Machine)
    /** '>' closed an include: parse target into the store, then go on with m. */
    | Include(m: Machine, target: string)
    | Throw(error: ParseError)

  /** What one parse leaves behind: the parser's fields, and the exception
      that escaped, if any (the fields keep what was merged before it). */
  datatype Outcome = Outcome(store: Store, error: Option<ParseError>)

  // ---------------------------------------------------------------------------
  // reading a character

  /** is.ignore(max, '\n') from i: the index just past the next line break. */
  function AfterLine(input: string, i: nat): (j: nat)
    requires i <= |input|
    ensures i <= j <= |input|
    ensures forall k :: i <= k < j - 1 ==> input[k] != '\n'
    ensures j < |input| ==> j > i && input[j - 1] == '\n'
    decreases |input| - i
  {
    if i == |input| then i
    else if input[i] == '\n' then i + 1
    else AfterLine(input, i + 1)
  }

  /** is.get(c) and the comment skip: a '#' swallows the rest of its line,
      line break included, and is handed on as '\n'. */
  function Read(input: string, i: nat): (r: (char, nat))
    requires i < |input|
    ensures r.0 != '#'
    ensures i < r.1 <= |input|
    ensures input[i] != '#' ==> r == (input[i], i + 1)
    ensures input[i] == '#' ==> r.0 == '\n' && r.1 == AfterLine(input, i + 1)
  {
    if input[i] == '#' then ('\n', AfterLine(input, i + 1)) else (input[i], i + 1)
  }

  /** pos++, and on a line break l++ and pos = 1. */
  function Advance(m: Machine, c: char): Machine {
    if c == '\n' then m.(l := m.l + 1, pos := 1) else m.(pos := m.pos + 1)
  }

  function Quote(c: char): string {
    "'" + [c] + "'"
  }

  // ---------------------------------------------------------------------------
  // the pending block

  /** curKV[tmp] = val{v, valLine, valPos, path}, then tmp and tmp2 cleared. */
  function Commit(m: Machine, path: string, v: string): Machine {
    m.(curKV := m.curKV[m.tmp := Val(v, m.valLine, m.valPos, path)], tmp := "", tmp2 := "")
  }

  /** The loop over headers, then headers.clear() and curKV.clear(). */
  function FlushPending(m: Machine): (r: Machine)
    requires Indexed(m.store)
    ensures Indexed(r.store)
  {
    m.(store := Flush(m.store, m.headers, m.curKV), headers := [], curKV := map[])
  }

  // ---------------------------------------------------------------------------
  // the transitions; a shared handler stands for each fall-through

  /** case NONE. */
  function InIdle(d: Dialect, path: string, m: Machine, c: char): (r: StepResult)
    requires Indexed(m.store)
    ensures r.Next? || r.Include? ==> Indexed(r.m.store)
  {
    if IsSpace(c) then Next(m)
    else if c == '[' || (c == '<' && d == Current) then
      var m1 := if m.tmp != "" then Commit(m, path, Trim(m.tmp2)) else m.(tmp := "", tmp2 := "");
      Next(FlushPending(m1).(s := if c == '[' then InHead else InInc))
    else if IsKeyChar(c) then
      Next(m.(headers := if m.headers == [] then Insert([], "") else m.headers,
              tmp := m.tmp + [c], s := InKeyValKey))
    else Throw(Syntax(m.l, m.pos, "header or key", Quote(c), path))
  }

  /** case IN_INC. */
  function InInclude(path: string, m: Machine, c: char): StepResult {
    if c == '\n' then Throw(Syntax(m.l, m.pos, ">", "<newline>", path))
    else if c == '>' then Include(m.(tmp := "", s := Idle), RelPath(m.tmp, path))
    else Next(m.(tmp := m.tmp + [c]))
  }

  /** case IN_HEAD. */
  function InHeader(path: string, m: Machine, c: char): StepResult {
    if IsSpace(c) then Next(m)
    else if IsKeyChar(c) then Next(m.(s := InHeadKey, tmp := m.tmp + [c]))
    else Throw(Syntax(m.l, m.pos, "header name", Quote(c), path))
  }

  /** case IN_HEAD_AW_COM_OR_END, also reached by falling through from IN_HEAD_KEY. */
  function AwaitCommaOrEnd(path: string, m: Machine, c: char): StepResult {
    if IsSpace(c) then Next(m)
    else if c == ',' then Next(m.(headers := Insert(m.headers, m.tmp), tmp := "", s := InHead))
    else if c == ']' then Next(m.(s := Idle, headers := Insert(m.headers, m.tmp), tmp := ""))
    else Throw(Syntax(m.l, m.pos, "next header oder header end", Quote(c), path))
  }

  /** case IN_HEAD_KEY. */
  function InHeaderKey(path: string, m: Machine, c: char): StepResult {
    if IsKeyChar(c) then Next(m.(tmp := m.tmp + [c]))
    else if IsSpace(c) then Next(m.(s := InHeadAwComOrEnd))
    else AwaitCommaOrEnd(path, m, c)
  }

  /** case IN_KEY_VAL_KEY. */
  function InKey(path: string, m: Machine, c: char): StepResult {
    if IsKeyChar(c) then Next(m.(tmp := m.tmp + [c]))
    else if c == ':' || c == '=' then Next(m.(valLine := m.l, valPos := m.pos, s := AwKeyValVal))
    else Throw(Syntax(m.l, m.pos, "key/value", Quote(c), path))
  }

  /** case IN_KEY_VAL_VAL, also reached by falling through from AW_KEY_VAL_VAL. */
  function InValue(m: Machine, c: char): Machine {
    if c == '\r' || c == '\n' then m.(s := InKeyValValHang)
    else m.(s := InKeyValVal, tmp2 := m.tmp2 + [c])
  }

  /** case AW_KEY_VAL_VAL. */
  function AwaitValue(m: Machine, c: char): Machine {
    if c == '\r' || c == '\n' then m.(s := InKeyValValHang)
    else if IsSpace(c) then m
    else InValue(m, c)
  }

  /** case IN_KEY_VAL_VAL_HANG_END, also reached by falling through from IN_KEY_VAL_VAL_HANG. */
  function HangEnd(m: Machine, c: char): Machine {
    if c == '\r' || c == '\n' then m.(s := InKeyValValHang)
    else if IsSpace(c) then m
    else m.(tmp2 := (if m.tmp2 != "" then m.tmp2 + " " else m.tmp2) + [c], s := InKeyValVal)
  }

  /** case IN_KEY_VAL_VAL_HANG. */
  function Hang(path: string, m: Machine, c: char): (r: Machine)
    requires Indexed(m.store)
    ensures Indexed(r.store)
  {
    if c == '\r' || c == '\n' then m
    else if c == '[' then FlushPending(Commit(m, path, Trim(m.tmp2))).(s := InHead)
    else if IsKeyChar(c) then Commit(m, path, Trim(m.tmp2)).(tmp := [c], s := InKeyValKey)
    else if IsSpace(c) then m.(s := InKeyValValHangEnd)
    else HangEnd(m, c)
  }

  /** The switch on s for the character c. */
  function Dispatch(d: Dialect, path: string, m: Machine, c: char): (r: StepResult)
    requires Indexed(m.store)
    ensures r.Next? || r.Include? ==> Indexed(r.m.store)
  {
    match m.s
    case Idle => InIdle(d, path, m, c)
    case InInc => InInclude(path, m, c)
    case InHead => InHeader(path, m, c)
    case InHeadKey => InHeaderKey(path, m, c)
    case InHeadAwComOrEnd => AwaitCommaOrEnd(path, m, c)
    case InKeyValKey => InKey(path, m, c)
    case AwKeyValVal => Next(AwaitValue(m, c))
    case InKeyValVal => Next(InValue(m, c))
    case InKeyValValHang => Next(Hang(path, m, c))
    case InKeyValValHangEnd => Next(HangEnd(m, c))
  }

  /** One character read: the counters, then the switch. */
  function Step(d: Dialect, path: string, m: Machine, c: char): (r: StepResult)
    requires Indexed(m.store)
    ensures r.Next? || r.Include? ==> Indexed(r.m.store)
  {
    Dispatch(d, path, Advance(m, c), c)
  }

  /** The states in which the input may end. */
  predicate AcceptsEnd(s: State) {
    s == InKeyValVal || s == Idle || s == InKeyValValHang || s == InKeyValValHangEnd
  }

  /** After the loop: the end-of-input check, the untrimmed commit of a
      pending pair whose key and value are both non-empty, and the last flush. */
  function Finish(path: string, m: Machine): (r: Outcome)
    requires Indexed(m.store)
    ensures Indexed(r.store)
  {
    if !AcceptsEnd(m.s) then Outcome(m.store, Some(Syntax(m.l, m.pos, "character", "<EOF>", path)))
    else
      var m1 := if m.tmp != "" && m.tmp2 != "" then Commit(m, path, m.tmp2) else m.(tmp := "", tmp2 := "");
      Outcome(Flush(m1.store, m1.headers, m1.curKV), None)
  }

  // ---------------------------------------------------------------------------
  // whole parses

  /** The loop from input position i on, in machine m. */
  function Scan(d: Dialect, files: map<string, string>, input: string, path: string, fuel: nat,
                i: nat, m: Machine): (r: Outcome)
    requires i <= |input| && Indexed(m.store)
    ensures Indexed(r.store)
    decreases fuel, 0, |input| - i
  {
    if i == |input| then Finish(path, m)
    else
      var (c, j) := Read(input, i);
      match Step(d, path, m, c)
      case Throw(e) => Outcome(m.store, Some(e))
      case Next(m1) => Scan(d, files, input, path, fuel, j, m1)
      case Include(m1, target) =>
        if fuel == 0 then Outcome(m1.store, Some(IncludeDepth(target)))
        else
          var o := ParseFile(d, files, target, fuel - 1, m1.store);
          if o.error.Some? then o else Scan(d, files, input, path, fuel, j, m1.(store := o.store))
  }

  /** parse(istream, path): the text of one file parsed into the store st. */
  function ParseText(d: Dialect, files: map<string, string>, input: string, path: string, fuel: nat,
                     st: Store): (r: Outcome)
    requires Indexed(st)
    ensures Indexed(r.store)
    decreases fuel, 1, 0
  {
    Scan(d, files, input, path, fuel, 0, Start(st))
  }

  /** parse(path): open the file, then parse its text; the file system is the
      map files. */
  function ParseFile(d: Dialect, files: map<string, string>, path: string, fuel: nat,
                     st: Store): (r: Outcome)
    requires Indexed(st)
    ensures Indexed(r.store)
    decreases fuel, 2, 0
  {
    if path !in files then Outcome(st, Some(FileAccess(path)))
    else ParseText(d, files, files[path], path, fuel, st)
  }

  // ---------------------------------------------------------------------------
  // unfolding the loop one character at a time

  /** One turn of the loop: the character c read at i (the next one being at
      j), the counters moved (machine mt), and the switch on mt.s. */
  lemma ScanTurn(d: Dialect, files: map<string, string>, input: string, path: string, fuel: nat,
                 i: nat, m: Machine, c: char, j: nat, mt: Machine)
    requires i < |input| && Indexed(m.store)
    requires Read(input, i) == (c, j) && Advance(m, c) == mt
    ensures Indexed(mt.store)
    ensures var r := Dispatch(d, path, mt, c);
      && (r.Next? ==> Scan(d, files, input, path, fuel, i, m) == Scan(d, files, input, path, fuel, j, r.m))
      && (r.Throw? ==> Scan(d, files, input, path, fuel, i, m) == Outcome(m.store, Some(r.error)))
      && (r.Include? && fuel == 0 ==>
            Scan(d, files, input, path, fuel, i, m) == Outcome(r.m.store, Some(IncludeDepth(r.target))))
      && (r.Include? && fuel > 0 ==>
            var o := ParseFile(d, files, r.target, fuel - 1, r.m.store);
            Scan(d, files, input, path, fuel, i, m) ==
              if o.error.Some? then o else Scan(d, files, input, path, fuel, j, r.m.(store := o.store)))
  {
  }

  /** The turn of the loop that closes an include, once the included file
      has been parsed into st with outcome error e (or the depth ran out). */
  lemma ScanIncluded(d: Dialect, files: map<string, string>, input: string, path: string, fuel: nat,
                     i: nat, m: Machine, c: char, j: nat, mt: Machine, r: StepResult, st: Store, e: Option<ParseError>)
    requires i < |input| && Indexed(m.store)
    requires Read(input, i) == (c, j) && Advance(m, c) == mt && Indexed(mt.store)
    requires r == Dispatch(d, path, mt, c) && r.Include?
    requires Outcome(st, e) == if fuel == 0 then Outcome(r.m.store, Some(IncludeDepth(r.target)))
                               else ParseFile(d, files, r.target, fuel - 1, r.m.store)
    ensures e.Some? ==> Scan(d, files, input, path, fuel, i, m) == Outcome(st, e)
    ensures e.None? ==> Scan(d, files, input, path, fuel, i, m) == Scan(d, files, input, path, fuel, j, r.m.(store := st))
  {
  }

  lemma ScanNext(d: Dialect, files: map<string, string>, input: string, path: string, fuel: nat,
                 i: nat, m: Machine, m1: Machine)
    requires i < |input| && input[i] != '#' && Indexed(m.store)
    requires Step(d, path, m, input[i]) == Next(m1)
    ensures Indexed(m1.store)
    ensures Scan(d, files, input, path, fuel, i, m) == Scan(d, files, input, path, fuel, i + 1, m1)
  {
  }

  lemma ScanThrow(d: Dialect, files: map<string, string>, input: string, path: string, fuel: nat,
                  i: nat, m: Machine, e: ParseError)
    requires i < |input| && input[i] != '#' && Indexed(m.store)
    requires Step(d, path, m, input[i]) == Throw(e)
    ensures Scan(d, files, input, path, fuel, i, m) == Outcome(m.store, Some(e))
  {
  }

  lemma ScanEnd(d: Dialect, files: map<string, string>, input: string, path: string, fuel: nat, m: Machine)
    requires Indexed(m.store)
    ensures Scan(d, files, input, path, fuel, |input|, m) == Finish(path, m)
  {
  }
}
