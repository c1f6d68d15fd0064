/** The parser object: its two fields _secs and _kvs, the parse methods that
    fill them character by character, and the read-only accessors. Each
    parse method is proved to leave the fields, and to raise the error, that
    the specification in module Automaton gives. */
module ConfigParser {
  import opened ConfigText
  import opened HeaderSet
  import opened ConfigStore
  import opened Automaton

  /** is.ignore(max, '\n'): skip past the next line break, or to the end. */
  method Ignore(input: string, i: nat) returns (j: nat)
    requires i <= |input|
    ensures j == AfterLine(input, i)
  {
    j := i;
    while j < |input| && input[j] != '\n'
      invariant i <= j <= |input|
      invariant AfterLine(input, i) == AfterLine(input, j)
      decreases |input| - j
    {
      j := j + 1;
    }
    if j < |input| {
      j := j + 1;
    }
  }

  /** is.get(c), then the comment skip: a '#' reads as the line break that
      ends its comment (the source's while loop runs at most once). */
  method Get(input: string, i: nat) returns (c: char, j: nat)
    requires i < |input|
    ensures (c, j) == Read(input, i)
  {
    c := input[i];
    j := i + 1;
    if c == '#' {
      j := Ignore(input, j);
      c := '\n';
    }
  }

  /** The loop of getStrArr over a value v: v + del is cut at every del,
      each piece trimmed, empty pieces dropped. */
  method Split(v: string, del: char) returns (ret: seq<string>)
    ensures ret == SplitTrim(v, del)
  {
    var s := v + [del];
    var l := 0;
    ret := [];
    var p := Find(s, del, l);
    while p.Some?
      invariant l <= |s|
      invariant p == Find(s, del, l)
      invariant ret + SplitFrom(s, del, l) == SplitFrom(s, del, 0)
      decreases |s| - l
    {
      SplitFromStep(s, del, l, p.value, ret);
      var tk := Trim(s[l..p.value]);
      if tk != "" {
        ret := ret + [tk];
      } else {
        assert ret + [] == ret;
      }
      l := p.value + 1;
      p := Find(s, del, l);
    }
    assert ret + [] == ret;
    SplitTrimFrom(v, del);
  }

  /** The loop of getIntArr: atoi of every piece, in order. */
  method ToInts(strs: seq<string>) returns (ret: seq<int>)
    ensures |ret| == |strs|
    ensures forall i :: 0 <= i < |strs| ==> ret[i] == Atoi(strs[i])
  {
    ret := [];
    for i := 0 to |strs|
      invariant |ret| == i
      invariant forall j :: 0 <= j < i ==> ret[j] == Atoi(strs[j])
    {
      ret := ret + [Atoi(strs[i])];
    }
  }

  /** The loop of getBoolArr: toBool of every piece, in order. */
  method ToBools(strs: seq<string>) returns (ret: seq<bool>)
    ensures |ret| == |strs|
    ensures forall i :: 0 <= i < |strs| ==> ret[i] == ToBool(strs[i])
  {
    ret := [];
    for i := 0 to |strs|
      invariant |ret| == i
      invariant forall j :: 0 <= j < i ==> ret[j] == ToBool(strs[j])
    {
      ret := ret + [ToBool(strs[i])];
    }
  }

  /** The file name parseStr reports in its errors and values. */
  const StringLiteral: string := "<string literal>"

  class ConfigFileParser {
    var secs: map<string, nat>
    var kvs: seq<KeyVals>

    /** Every section name points into _kvs. That _secs is moreover one-to-one
        and onto is proved about the parse functions the methods follow. */
    ghost predicate Valid()
      reads this
    {
      Indexed(Store(secs, kvs))
    }

    /** The sections a reader of this parser sees. */
    ghost function View(): map<string, KeyVals>
      reads this
    {
      Sections(Store(secs, kvs))
    }

    constructor ()
      ensures Valid() && secs == map[] && kvs == []
    {
      secs := map[];
      kvs := [];
    }

    /** updateVals: write every key of block into _kvs[sec]. */
    method UpdateVals(sec: nat, block: KeyVals)
      requires sec < |kvs|
      modifies this
      ensures Store(secs, kvs) == ConfigStore.UpdateVals(old(Store(secs, kvs)), sec, block)
    {
      var rest := block.Keys;
      while rest != {}
        invariant rest <= block.Keys
        invariant secs == old(secs) && |kvs| == old(|kvs|)
        invariant forall i :: 0 <= i < |kvs| && i != sec ==> kvs[i] == old(kvs[i])
        invariant kvs[sec] == old(kvs[sec]) + map k | k in block && k !in rest :: block[k]
        decreases rest
      {
        var k :| k in rest;
        kvs := kvs[sec := kvs[sec][k := block[k]]];
        rest := rest - {k};
      }
      assert (map k | k in block && k !in rest :: block[k]) == block;
    }

    /** The loop over the pending headers: an existing section is updated,
        a new one is appended to _kvs. */
    method FlushHeaders(headers: seq<string>, block: KeyVals)
      requires Valid()
      modifies this
      ensures Valid()
      ensures Store(secs, kvs) == Flush(old(Store(secs, kvs)), headers, block)
    {
      ghost var goal := Flush(Store(secs, kvs), headers, block);
      var i := 0;
      while i < |headers|
        invariant i <= |headers|
        invariant Valid()
        invariant Flush(Store(secs, kvs), headers[i..], block) == goal
      {
        ghost var before := Store(secs, kvs);
        var h := headers[i];
        if h in secs {
          UpdateVals(secs[h], block);
        } else {
          secs := secs[h := |kvs|];
          kvs := kvs + [block];
        }
        assert Store(secs, kvs) == MergeHeader(before, h, block);
        FlushStep(before, headers, i, block);
        i := i + 1;
      }
    }

    /** parse(path): open the file, then parse it; the legacy and current
        parsers differ only in the dialect. */
    method Open(d: Dialect, files: map<string, string>, path: string, fuel: nat) returns (err: Option<ParseError>)
      requires Valid()
      modifies this
      ensures Valid()
      ensures Outcome(Store(secs, kvs), err) == ParseFile(d, files, path, fuel, old(Store(secs, kvs)))
      decreases fuel, 2, 0
    {
      if path !in files {
        return Some(FileAccess(path));
      }
      err := Run(d, files, files[path], path, fuel);
    }

    /** parse(istream, path): the automaton, one character at a time. */
    method Run(d: Dialect, files: map<string, string>, input: string, path: string, fuel: nat)
      returns (err: Option<ParseError>)
      requires Valid()
      modifies this
      ensures Valid()
      ensures Outcome(Store(secs, kvs), err) == ParseText(d, files, input, path, fuel, old(Store(secs, kvs)))
      decreases fuel, 1, 0
    {
      ghost var goal := ParseText(d, files, input, path, fuel, Store(secs, kvs));
      var s := Idle;
      var headers: seq<string> := [];
      var curKV: KeyVals := map[];
      var tmp, tmp2 := "", "";
      var l: nat, pos: nat, valLine: nat, valPos: nat := 1, 0, 0, 0;
      var i := 0;
      while i < |input|
        invariant i <= |input|
        invariant Valid()
        invariant Scan(d, files, input, path, fuel, i,
                       Machine(s, headers, curKV, tmp, tmp2, l, pos, valLine, valPos, Store(secs, kvs))) == goal
        decreases |input| - i
      {
        ghost var m0 := Machine(s, headers, curKV, tmp, tmp2, l, pos, valLine, valPos, Store(secs, kvs));
        ghost var i0 := i;
        var c;
        c, i := Get(input, i);
        pos := pos + 1;
        if c == '\n' {
          l := l + 1;
          pos := 1;
        }
        ghost var mt := Machine(s, headers, curKV, tmp, tmp2, l, pos, valLine, valPos, Store(secs, kvs));
        ScanTurn(d, files, input, path, fuel, i0, m0, c, i, mt);
        ghost var r := Dispatch(d, path, mt, c);

        var target, e;
        s, headers, curKV, tmp, tmp2, valLine, valPos, target, e :=
          Transit(d, path, s, headers, curKV, tmp, tmp2, l, pos, valLine, valPos, c);
        if e.Some? {
          return e;
        }
        if target.Some? {
          assert r.Include? && r.target == target.value;
          ghost var before := Store(secs, kvs);
          assert before == r.m.store;
          e := Include(d, files, target.value, fuel);
          assert Read(input, i0) == (c, i);
          assert Advance(m0, c) == mt;
          ScanIncluded(d, files, input, path, fuel, i0, m0, c, i, mt, r, Store(secs, kvs), e);
          if e.Some? {
            return e;
          }
          assert r.m.(store := Store(secs, kvs)) == Machine(s, headers, curKV, tmp, tmp2, l, pos, valLine, valPos, Store(secs, kvs));
        }
      }

      err := Finish(path, s, headers, curKV, tmp, tmp2, l, pos, valLine, valPos);
    }

    /** case IN_INC on '>': parse the included file into this parser. The
        include depth of the model is fuel. */
    method Include(d: Dialect, files: map<string, string>, target: string, fuel: nat) returns (err: Option<ParseError>)
      requires Valid()
      modifies this
      ensures Valid()
      ensures Outcome(Store(secs, kvs), err) ==
              if fuel == 0 then Outcome(old(Store(secs, kvs)), Some(IncludeDepth(target)))
              else ParseFile(d, files, target, fuel - 1, old(Store(secs, kvs)))
      decreases fuel, 0, 0
    {
      if fuel == 0 {
        return Some(IncludeDepth(target));
      }
      err := Open(d, files, target, fuel - 1);
    }

    /** After the loop: the end-of-input check, the untrimmed commit of a
        pending pair, and the last flush. */
    method Finish(path: string, s: State, headers: seq<string>, curKV: KeyVals,
                  tmp: string, tmp2: string, l: nat, pos: nat, valLine: nat, valPos: nat)
      returns (err: Option<ParseError>)
      requires Valid()
      modifies this
      ensures Valid()
      ensures Outcome(Store(secs, kvs), err) ==
              Automaton.Finish(path, Machine(s, headers, curKV, tmp, tmp2, l, pos, valLine, valPos, old(Store(secs, kvs))))
    {
      if s != InKeyValVal && s != Idle && s != InKeyValValHang && s != InKeyValValHangEnd {
        return Some(Syntax(l, pos, "character", "<EOF>", path));
      }
      var block := curKV;
      if tmp != "" && tmp2 != "" {
        block := block[tmp := Val(tmp2, valLine, valPos, path)];
      }
      FlushHeaders(headers, block);
      err := None;
    }

    /** The switch on s for one character c, after the counters have moved.
        A thrown parse exception comes back in err; the end of an include
        directive comes back as its target. */
    method Transit(d: Dialect, path: string, s: State, headers: seq<string>, curKV: KeyVals,
                   tmp: string, tmp2: string, l: nat, pos: nat, valLine: nat, valPos: nat, c: char)
      returns (s': State, headers': seq<string>, curKV': KeyVals, tmp': string, tmp2': string,
               valLine': nat, valPos': nat, target: Option<string>, err: Option<ParseError>)
      requires Valid()
      modifies this
      ensures Valid()
      ensures var r := Dispatch(d, path, Machine(s, headers, curKV, tmp, tmp2, l, pos, valLine, valPos,
                                                 old(Store(secs, kvs))), c);
        var m' := Machine(s', headers', curKV', tmp', tmp2', l, pos, valLine', valPos', Store(secs, kvs));
        && (r.Throw? ==> err == Some(r.error) && Store(secs, kvs) == old(Store(secs, kvs)))
        && (r.Next? ==> err.None? && target.None? && r.m == m')
        && (r.Include? ==> err.None? && target == Some(r.target) && r.m == m')
    {
      s', headers', curKV', tmp', tmp2', valLine', valPos' := s, headers, curKV, tmp, tmp2, valLine, valPos;
      target, err := None, None;
      var st := s;
      if st == Idle {
        if IsSpace(c) {
          return;
        }
        if c == '[' || (c == '<' && d == Current) {
          if tmp != "" {
            curKV' := curKV'[tmp := Val(Trim(tmp2), valLine, valPos, path)];
          }
          tmp', tmp2' := "", "";
          FlushHeaders(headers, curKV');
          headers' := [];
          curKV' := map[];
          if c == '[' {
            s' := InHead;
          }
          if c == '<' {
            s' := InInc;
          }
          return;
        }
        if IsKeyChar(c) {
          if headers == [] {
            headers' := Insert(headers, "");
          }
          tmp' := tmp + [c];
          s' := InKeyValKey;
          return;
        }
        err := Some(Syntax(l, pos, "header or key", Quote(c), path));
        return;
      }
      if st == InInc {
        if c == '\n' {
          err := Some(Syntax(l, pos, ">", "<newline>", path));
        } else if c == '>' {
          target := Some(RelPath(tmp, path));
          tmp' := "";
          s' := Idle;
        } else {
          tmp' := tmp + [c];
        }
        return;
      }
      if st == InHead {
        if IsSpace(c) {
          return;
        }
        if IsKeyChar(c) {
          s' := InHeadKey;
          tmp' := tmp + [c];
          return;
        }
        err := Some(Syntax(l, pos, "header name", Quote(c), path));
        return;
      }
      if st == InHeadKey {
        if IsKeyChar(c) {
          tmp' := tmp + [c];
          return;
        }
        if IsSpace(c) {
          s' := InHeadAwComOrEnd;
          return;
        }
        st := InHeadAwComOrEnd; // fall through
      }
      if st == InHeadAwComOrEnd {
        if IsSpace(c) {
          return;
        }
        if c == ',' {
          headers' := Insert(headers, tmp);
          tmp' := "";
          s' := InHead;
          return;
        }
        if c == ']' {
          s' := Idle;
          headers' := Insert(headers, tmp);
          tmp' := "";
          return;
        }
        err := Some(Syntax(l, pos, "next header oder header end", Quote(c), path));
        return;
      }
      if st == InKeyValKey {
        if IsKeyChar(c) {
          tmp' := tmp + [c];
          return;
        }
        if c == ':' || c == '=' {
          valLine', valPos' := l, pos;
          s' := AwKeyValVal;
          return;
        }
        err := Some(Syntax(l, pos, "key/value", Quote(c), path));
        return;
      }
      if st == AwKeyValVal {
        if c == '\r' || c == '\n' {
          s' := InKeyValValHang;
          return;
        }
        if IsSpace(c) {
          return;
        }
        st := InKeyValVal; // fall through
      }
      if st == InKeyValVal {
        s' := InKeyValVal;
        if c == '\r' || c == '\n' {
          s' := InKeyValValHang;
          return;
        }
        tmp2' := tmp2 + [c];
        return;
      }
      if st == InKeyValValHang {
        if c == '\r' || c == '\n' {
          return;
        }
        if c == '[' {
          curKV' := curKV[tmp := Val(Trim(tmp2), valLine, valPos, path)];
          tmp', tmp2' := "", "";
          FlushHeaders(headers, curKV');
          headers' := [];
          curKV' := map[];
          s' := InHead;
          return;
        }
        if IsKeyChar(c) {
          curKV' := curKV[tmp := Val(Trim(tmp2), valLine, valPos, path)];
          tmp', tmp2' := "", "";
          tmp' := tmp' + [c];
          s' := InKeyValKey;
          return;
        }
        if IsSpace(c) {
          s' := InKeyValValHangEnd;
          return;
        }
        st := InKeyValValHangEnd; // fall through
      }
      // IN_KEY_VAL_VAL_HANG_END
      if c == '\r' || c == '\n' {
        s' := InKeyValValHang;
        return;
      }
      if IsSpace(c) {
        return;
      }
      if tmp2 != "" {
        tmp2' := tmp2 + " ";
      }
      tmp2' := tmp2' + [c];
      s' := InKeyValVal;
    }

    // -------------------------------------------------------------------------
    // the public parse methods

    /** config_file_parser::parse(path); includes nest at most fuel deep. */
    method Parse(files: map<string, string>, path: string, fuel: nat) returns (err: Option<ParseError>)
      requires Valid()
      modifies this
      ensures Valid()
      ensures Outcome(Store(secs, kvs), err) == ParseFile(Current, files, path, fuel, old(Store(secs, kvs)))
    {
      err := Open(Current, files, path, fuel);
    }

    /** config_file_parser::parse(istream, path). */
    method ParseStream(files: map<string, string>, input: string, path: string, fuel: nat)
      returns (err: Option<ParseError>)
      requires Valid()
      modifies this
      ensures Valid()
      ensures Outcome(Store(secs, kvs), err) == ParseText(Current, files, input, path, fuel, old(Store(secs, kvs)))
    {
      err := Run(Current, files, input, path, fuel);
    }

    /** parseStr: the text parsed under the name "<string literal>". */
    method ParseStr(files: map<string, string>, str: string, fuel: nat) returns (err: Option<ParseError>)
      requires Valid()
      modifies this
      ensures Valid()
      ensures Outcome(Store(secs, kvs), err) ==
              ParseText(Current, files, str, StringLiteral, fuel, old(Store(secs, kvs)))
    {
      err := Run(Current, files, str, StringLiteral, fuel);
    }

    /** ConfigFileParser::parse(path): the same fields, no include directive. */
    method ParseLegacy(files: map<string, string>, path: string) returns (err: Option<ParseError>)
      requires Valid()
      modifies this
      ensures Valid()
      ensures Outcome(Store(secs, kvs), err) == ParseFile(Legacy, files, path, 0, old(Store(secs, kvs)))
    {
      err := Open(Legacy, files, path, 0);
    }

    // -------------------------------------------------------------------------
    // the accessors

    /** hasKey: the section exists and holds the key. */
    predicate HasKey(section: string, key: string)
      requires Valid()
      reads this
      ensures HasKey(section, key) <==> section in View() && key in View()[section]
    {
      section in secs && key in kvs[secs[section]]
    }

    /** getSecs. */
    function GetSecs(): (r: map<string, nat>)
      requires Valid()
      reads this
      ensures r.Keys == View().Keys
      ensures forall h :: h in r ==> r[h] < |kvs| && kvs[r[h]] == View()[h]
    {
      secs
    }

    /** getKeyVals: the block of an existing section. */
    function GetKeyVals(section: string): (kv: KeyVals)
      requires Valid() && section in secs
      reads this
      ensures section in View() && kv == View()[section]
    {
      kvs[secs[section]]
    }

    /** getVal: the value of a present key, with where it was defined. */
    function GetVal(section: string, key: string): (v: Val)
      requires Valid() && HasKey(section, key)
      reads this
      ensures v == View()[section][key]
    {
      kvs[secs[section]][key]
    }

    /** getStr: the text of a present key. */
    function GetStr(section: string, key: string): (v: string)
      requires Valid() && HasKey(section, key)
      reads this
      ensures v == View()[section][key].val
    {
      kvs[secs[section]][key].val
    }

    /** getInt: atoi of the text. */
    function GetInt(section: string, key: string): (n: int)
      requires Valid() && HasKey(section, key)
      reads this
      ensures n == Atoi(View()[section][key].val)
    {
      Atoi(GetStr(section, key))
    }

    /** getBool: toBool of the text. */
    function GetBool(section: string, key: string): (b: bool)
      requires Valid() && HasKey(section, key)
      reads this
      ensures b == ToBool(View()[section][key].val)
    {
      ToBool(GetStr(section, key))
    }

    /** getStrArr: the text cut at every del, each piece trimmed, empty
        pieces dropped. */
    method GetStrArr(section: string, key: string, del: char) returns (ret: seq<string>)
      requires Valid() && HasKey(section, key)
      ensures ret == SplitTrim(View()[section][key].val, del)
    {
      ret := Split(GetStr(section, key), del);
    }

    /** getIntArr: atoi of every piece getStrArr yields. */
    method GetIntArr(section: string, key: string, del: char) returns (ret: seq<int>)
      requires Valid() && HasKey(section, key)
      ensures var ps := SplitTrim(View()[section][key].val, del);
        |ret| == |ps| && forall i :: 0 <= i < |ps| ==> ret[i] == Atoi(ps[i])
    {
      var strs := GetStrArr(section, key, del);
      ret := ToInts(strs);
    }

    /** getBoolArr: toBool of every piece getStrArr yields. */
    method GetBoolArr(section: string, key: string, del: char) returns (ret: seq<bool>)
      requires Valid() && HasKey(section, key)
      ensures var ps := SplitTrim(View()[section][key].val, del);
        |ret| == |ps| && forall i :: 0 <= i < |ps| ==> ret[i] == ToBool(ps[i])
    {
      var strs := GetStrArr(section, key, del);
      ret := ToBools(strs);
    }
  }
}
