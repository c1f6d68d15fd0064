/** What the automaton guarantees about everything it stores, over whole
    parses with their includes: the index stays a bijection, no section
    disappears, no key is lost, and every name in the store is one the
    grammar allows. */
module ParserProperties {
  import opened ConfigText
  import opened HeaderSet
  import opened ConfigStore
  import opened Automaton

  // ---------------------------------------------------------------------------
  // the invariants

  /** Keys are non-empty runs of key characters. */
  ghost predicate KeyNames(block: KeyVals) {
    forall k :: k in block ==> k != "" && AllKeyChars(k)
  }

  /** Section names are runs of key characters ("" for keys before any
      header) and hold well-named keys. */
  ghost predicate WellNamed(secs: map<string, KeyVals>) {
    forall h :: h in secs ==> AllKeyChars(h) && KeyNames(secs[h])
  }

  /** What a parse may leave in _secs and _kvs. */
  ghost predicate Sound(st: Store) {
    Bijective(st) && WellNamed(Sections(st))
  }

  /** The states in which tmp holds a header name or a key being read. */
  predicate NameState(s: State) {
    s == InHeadKey || s == InHeadAwComOrEnd || s == InKeyValKey || s == AwKeyValVal ||
    s == InKeyValVal || s == InKeyValValHang || s == InKeyValValHangEnd
  }

  /** What holds of the loop's locals between two characters. In IN_INC tmp
      collects a path, which may hold any character but a line break. */
  ghost predicate Pending(m: Machine) {
    && Ordered(m.headers)
    && (forall h :: h in m.headers ==> AllKeyChars(h))
    && KeyNames(m.curKV)
    && (m.s == Idle || m.s == InHead ==> m.tmp == "")
    && (NameState(m.s) ==> m.tmp != "" && AllKeyChars(m.tmp))
  }

  // ---------------------------------------------------------------------------
  // one flush, one character, the end of input

  lemma FlushSound(st: Store, hs: seq<string>, block: KeyVals)
    requires Sound(st)
    requires forall h :: h in hs ==> AllKeyChars(h)
    requires KeyNames(block)
    ensures Sound(Flush(st, hs, block)) && Grows(st, Flush(st, hs, block))
  {
    FlushBijective(st, hs, block);
    FlushSections(st, hs, block);
    var s0, r := Sections(st), Sections(Flush(st, hs, block));
    forall h | h in r ensures AllKeyChars(h) && KeyNames(r[h]) {
      if h in hs {
        assert r[h] == if h in s0 then s0[h] + block else block;
      } else {
        assert h in s0 && r[h] == s0[h];
      }
    }
    forall h | h in s0 ensures h in r && s0[h].Keys <= r[h].Keys {
      if h in hs {
        assert r[h] == s0[h] + block;
      }
    }
  }

  lemma FlushPendingSound(m: Machine)
    requires Pending(m) && Sound(m.store)
    ensures Sound(FlushPending(m).store) && Grows(m.store, FlushPending(m).store)
    ensures Pending(FlushPending(m).(s := InHead, tmp := ""))
  {
    FlushSound(m.store, m.headers, m.curKV);
  }

  lemma PendingStore(m: Machine, st: Store)
    requires Pending(m)
    ensures Pending(m.(store := st))
  {
  }

  lemma GrowsReflexive(st: Store)
    ensures Grows(st, st)
  {
  }

  lemma AppendKeyChar(s: string, c: char)
    requires AllKeyChars(s) && IsKeyChar(c)
    ensures AllKeyChars(s + [c])
  {
  }

  /** A transition that goes on keeps the invariants, and the store only grows. */
  ghost predicate KeepsSound(m: Machine, r: StepResult) {
    r.Next? || r.Include? ==> Pending(r.m) && Sound(r.m.store) && Grows(m.store, r.m.store)
  }

  lemma AdvanceSound(m: Machine, c: char)
    requires Pending(m)
    ensures Pending(Advance(m, c)) && Advance(m, c).store == m.store && Advance(m, c).s == m.s
  {
  }

  lemma IdleSound(d: Dialect, path: string, m: Machine, c: char)
    requires m.s == Idle && Pending(m) && Sound(m.store)
    ensures KeepsSound(m, InIdle(d, path, m, c))
  {
    if !IsSpace(c) && (c == '[' || (c == '<' && d == Current)) {
      FlushPendingSound(m.(tmp := "", tmp2 := "", s := InHead));
    } else {
      GrowsReflexive(m.store);
      if !IsSpace(c) && IsKeyChar(c) {
        assert m.tmp + [c] == [c];
      }
    }
  }

  lemma HeaderSound(path: string, m: Machine, c: char)
    requires m.s == InHead || m.s == InHeadKey || m.s == InHeadAwComOrEnd
    requires Pending(m) && Sound(m.store)
    ensures KeepsSound(m, Dispatch(Current, path, m, c))
    ensures var r := Dispatch(Current, path, m, c);
      r.Next? ==> forall h :: h in r.m.headers && h !in m.headers ==> h != "" && AllKeyChars(h)
  {
    GrowsReflexive(m.store);
    if IsKeyChar(c) {
      AppendKeyChar(m.tmp, c);
    }
    if m.s != InHead && (c == ',' || c == ']') {
      InsertOrdered(m.headers, m.tmp);
    }
  }

  /** A transition that touches neither the names nor the store. */
  lemma QuietSound(m: Machine, m1: Machine)
    requires Pending(m) && Sound(m.store) && NameState(m.s) && NameState(m1.s)
    requires m1.headers == m.headers && m1.curKV == m.curKV && m1.tmp == m.tmp && m1.store == m.store
    ensures KeepsSound(m, Next(m1))
  {
    GrowsReflexive(m.store);
  }

  lemma KeySound(path: string, m: Machine, c: char)
    requires m.s == InKeyValKey && Pending(m) && Sound(m.store)
    ensures KeepsSound(m, InKey(path, m, c))
  {
    GrowsReflexive(m.store);
    if IsKeyChar(c) {
      AppendKeyChar(m.tmp, c);
    }
  }

  lemma ValueSound(m: Machine, c: char)
    requires (m.s == AwKeyValVal || m.s == InKeyValVal || m.s == InKeyValValHangEnd)
    requires Pending(m) && Sound(m.store)
    ensures KeepsSound(m, Next(AwaitValue(m, c)))
    ensures KeepsSound(m, Next(InValue(m, c)))
    ensures KeepsSound(m, Next(HangEnd(m, c)))
    ensures AwaitValue(m, c).store == m.store && AwaitValue(m, c).tmp == m.tmp
    ensures InValue(m, c).store == m.store && InValue(m, c).tmp == m.tmp
    ensures HangEnd(m, c).store == m.store && HangEnd(m, c).tmp == m.tmp
  {
    QuietSound(m, AwaitValue(m, c));
    QuietSound(m, InValue(m, c));
    QuietSound(m, HangEnd(m, c));
  }

  lemma HangSound(path: string, m: Machine, c: char)
    requires m.s == InKeyValValHang && Pending(m) && Sound(m.store)
    ensures KeepsSound(m, Next(Hang(path, m, c)))
  {
    if c == '[' {
      FlushPendingSound(Commit(m, path, Trim(m.tmp2)).(s := InHead));
    } else if c != '\r' && c != '\n' && IsKeyChar(c) {
      NewKeySound(path, m, c);
    } else {
      QuietSound(m, Hang(path, m, c));
    }
  }

  /** A key at the start of a line commits the pending pair and starts the next. */
  lemma NewKeySound(path: string, m: Machine, c: char)
    requires NameState(m.s) && Pending(m) && Sound(m.store) && IsKeyChar(c)
    ensures KeepsSound(m, Next(Commit(m, path, Trim(m.tmp2)).(tmp := [c], s := InKeyValKey)))
  {
    GrowsReflexive(m.store);
  }

  /** One character keeps the invariants, and the store only grows. */
  lemma StepSound(d: Dialect, path: string, m: Machine, c: char)
    requires Pending(m) && Sound(m.store)
    ensures KeepsSound(m, Step(d, path, m, c))
  {
    var mt := Advance(m, c);
    AdvanceSound(m, c);
    assert KeepsSound(m, Step(d, path, m, c)) <== KeepsSound(mt, Dispatch(d, path, mt, c));
    match mt.s
    case Idle => IdleSound(d, path, mt, c);
    case InInc => GrowsReflexive(mt.store);
    case InHead => HeaderSound(path, mt, c);
    case InHeadKey => HeaderSound(path, mt, c);
    case InHeadAwComOrEnd => HeaderSound(path, mt, c);
    case InKeyValValHang => HangSound(path, mt, c);
    case InKeyValKey => KeySound(path, mt, c);
    case _ => ValueSound(mt, c);
  }

  /** The end of input keeps the store sound and growing. */
  lemma FinishSound(path: string, m: Machine)
    requires Pending(m) && Sound(m.store)
    ensures Sound(Finish(path, m).store) && Grows(m.store, Finish(path, m).store)
  {
    if AcceptsEnd(m.s) {
      var m1 := if m.tmp != "" && m.tmp2 != "" then Commit(m, path, m.tmp2) else m.(tmp := "", tmp2 := "");
      FlushSound(m1.store, m1.headers, m1.curKV);
    }
  }

  // ---------------------------------------------------------------------------
  // whole parses

  /** The loop from i on keeps the store sound and growing, through every
      include it follows. */
  lemma {:induction false} ScanSound(d: Dialect, files: map<string, string>, input: string, path: string,
                                     fuel: nat, i: nat, m: Machine)
    requires i <= |input| && Pending(m) && Sound(m.store)
    ensures var r := Scan(d, files, input, path, fuel, i, m);
      Sound(r.store) && Grows(m.store, r.store)
    decreases fuel, 0, |input| - i, 0
  {
    if i == |input| {
      FinishSound(path, m);
    } else {
      var c, j := Read(input, i).0, Read(input, i).1;
      StepSound(d, path, m, c);
      var r := Step(d, path, m, c);
      match r
      case Throw(e) =>
        assert Scan(d, files, input, path, fuel, i, m).store == m.store;
        GrowsReflexive(m.store);
      case Next(m1) =>
        assert Scan(d, files, input, path, fuel, i, m) == Scan(d, files, input, path, fuel, j, m1);
        ScanSound(d, files, input, path, fuel, j, m1);
        GrowsTransitive(m.store, m1.store, Scan(d, files, input, path, fuel, j, m1).store);
      case Include(m1, target) =>
        assert Scan(d, files, input, path, fuel, i, m) == AfterInclude(d, files, input, path, fuel, j, m1, target);
        IncludeSound(d, files, input, path, fuel, j, m1, target);
        GrowsTransitive(m.store, m1.store, Scan(d, files, input, path, fuel, i, m).store);
    }
  }

  /** What the loop does after '>' closed an include: the included file is
      parsed into the store, and the loop goes on unless it threw. */
  ghost function AfterInclude(d: Dialect, files: map<string, string>, input: string, path: string,
                              fuel: nat, j: nat, m1: Machine, target: string): Outcome
    requires j <= |input| && Indexed(m1.store)
  {
    if fuel == 0 then Outcome(m1.store, Some(IncludeDepth(target)))
    else
      var o := ParseFile(d, files, target, fuel - 1, m1.store);
      if o.error.Some? then o else Scan(d, files, input, path, fuel, j, m1.(store := o.store))
  }

  lemma {:induction false} IncludeSound(d: Dialect, files: map<string, string>, input: string, path: string,
                                        fuel: nat, j: nat, m1: Machine, target: string)
    requires j <= |input| && Pending(m1) && Sound(m1.store)
    ensures var r := AfterInclude(d, files, input, path, fuel, j, m1, target);
      Sound(r.store) && Grows(m1.store, r.store)
    decreases fuel, 0, |input| - j, 1
  {
    if fuel == 0 {
      GrowsReflexive(m1.store);
    } else {
      var o := ParseFile(d, files, target, fuel - 1, m1.store);
      FileSound(d, files, target, fuel - 1, m1.store);
      if o.error.None? {
        var m2 := m1.(store := o.store);
        PendingStore(m1, o.store);
        ScanSound(d, files, input, path, fuel, j, m2);
        GrowsTransitive(m1.store, o.store, Scan(d, files, input, path, fuel, j, m2).store);
      } else {
        assert AfterInclude(d, files, input, path, fuel, j, m1, target) == o;
      }
    }
  }

  /** parse(path) into a sound store leaves a sound store that has lost no
      section and no key, whether or not an exception escapes. */
  lemma {:induction false} FileSound(d: Dialect, files: map<string, string>, path: string, fuel: nat, st: Store)
    requires Sound(st)
    ensures Sound(ParseFile(d, files, path, fuel, st).store)
    ensures Grows(st, ParseFile(d, files, path, fuel, st).store)
    decreases fuel, 2, 0, 0
  {
    if path in files {
      ScanSound(d, files, files[path], path, fuel, 0, Start(st));
    }
  }

  /** The same for parse(istream, path) and parseStr. */
  lemma TextSound(d: Dialect, files: map<string, string>, input: string, path: string, fuel: nat, st: Store)
    requires Sound(st)
    ensures Sound(ParseText(d, files, input, path, fuel, st).store)
    ensures Grows(st, ParseText(d, files, input, path, fuel, st).store)
  {
    ScanSound(d, files, input, path, fuel, 0, Start(st));
  }
}
