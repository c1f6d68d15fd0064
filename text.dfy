/** Character classes and the small string helpers of config_file_parser
    (trim, isKeyChar, toBool, relPath, the splitting behind getStrArr),
    restricted to the C locale and to ASCII. */
module ConfigText {

  datatype Option<T> = None | Some(value: T)

  /** std::isspace in the C locale: the blank and the five control characters
      from '\t' to '\r' (tab, line feed, vertical tab, form feed, carriage
      return). */
  predicate IsSpace(c: char) {
    c == ' ' || '\t' <= c <= '\r'
  }

  predicate IsDigit(c: char) {
    '0' <= c <= '9'
  }

  /** std::isalnum in the C locale. */
  predicate IsAlnum(c: char) {
    IsDigit(c) || 'a' <= c <= 'z' || 'A' <= c <= 'Z'
  }

  /** isKeyChar: the characters a header name or a key is made of. */
  predicate IsKeyChar(c: char) {
    IsAlnum(c) || c == '_' || c == '-' || c == '.'
  }

  predicate AllKeyChars(s: string) {
    forall i :: 0 <= i < |s| ==> IsKeyChar(s[i])
  }

  predicate AllSpace(s: string) {
    forall i :: 0 <= i < |s| ==> IsSpace(s[i])
  }

  // ---------------------------------------------------------------------------
  // trim

  /** find_first_not_of(" \f\n\r\t\v") starting at i; |s| stands for npos. */
  function FirstNonSpace(s: string, i: nat): (k: nat)
    requires i <= |s|
    ensures i <= k <= |s|
    decreases |s| - i
  {
    if i == |s| || !IsSpace(s[i]) then i else FirstNonSpace(s, i + 1)
  }

  lemma {:induction false} FirstNonSpaceIs(s: string, i: nat)
    requires i <= |s|
    ensures var k := FirstNonSpace(s, i);
      (forall j :: i <= j < k ==> IsSpace(s[j])) && (k < |s| ==> !IsSpace(s[k]))
    decreases |s| - i
  {
    if i < |s| && IsSpace(s[i]) {
      FirstNonSpaceIs(s, i + 1);
    }
  }

  /** One past find_last_not_of(" \f\n\r\t\v") within s[..j]; 0 stands for npos. */
  function EndNonSpace(s: string, j: nat): (k: nat)
    requires j <= |s|
    ensures k <= j
    decreases j
  {
    if j == 0 || !IsSpace(s[j - 1]) then j else EndNonSpace(s, j - 1)
  }

  lemma {:induction false} EndNonSpaceIs(s: string, j: nat)
    requires j <= |s|
    ensures var k := EndNonSpace(s, j);
      (forall t :: k <= t < j ==> IsSpace(s[t])) && (k > 0 ==> !IsSpace(s[k - 1]))
    decreases j
  {
    if j > 0 && IsSpace(s[j - 1]) {
      EndNonSpaceIs(s, j - 1);
    }
  }

  /** When str has a non-space character, the first one comes no later than
      the last one. */
  lemma NonSpaceBounds(str: string)
    ensures FirstNonSpace(str, 0) < |str| ==> FirstNonSpace(str, 0) < EndNonSpace(str, |str|)
  {
    var s := FirstNonSpace(str, 0);
    FirstNonSpaceIs(str, 0);
    EndNonSpaceIs(str, |str|);

  }

  /** trim: drop the whitespace at both ends. */
  function Trim(str: string): (r: string)
    ensures |r| <= |str|
  {
    var s := FirstNonSpace(str, 0);
    NonSpaceBounds(str);
    if s == |str| then "" else str[s..EndNonSpace(str, |str|)]
  }

  /** Trim yields nothing exactly for an all-whitespace input, and otherwise
      neither starts nor ends with whitespace. */
  lemma TrimEnds(str: string)
    ensures var r := Trim(str);
      && (r == "" <==> AllSpace(str))
      && (r != "" ==> !IsSpace(r[0]) && !IsSpace(r[|r| - 1]))
  {
    var s := FirstNonSpace(str, 0);
    FirstNonSpaceIs(str, 0);
    EndNonSpaceIs(str, |str|);
    NonSpaceBounds(str);
    if s < |str| {
      var e := EndNonSpace(str, |str|);
      assert s < e;
      assert !AllSpace(str) by { assert !IsSpace(str[s]); }
    }
  }

  /** What trim keeps is a stretch of its input between a whitespace-only
      head and a whitespace-only tail. */
  lemma TrimInfix(str: string)
    ensures exists a, b :: 0 <= a <= b <= |str| && Trim(str) == str[a..b] && AllSpace(str[..a]) && AllSpace(str[b..])
  {
    var s := FirstNonSpace(str, 0);
    FirstNonSpaceIs(str, 0);
    EndNonSpaceIs(str, |str|);
    NonSpaceBounds(str);
    if s == |str| {
      assert str[..s] == str && str[s..] == "" && str[s..s] == "";
    } else {
      var e := EndNonSpace(str, |str|);
      assert AllSpace(str[..s]) && AllSpace(str[e..]);
    }
  }

  lemma TrimIdempotent(str: string)
    ensures Trim(Trim(str)) == Trim(str)
  {
    var r := Trim(str);
    TrimEnds(str);
    if r != "" {
      assert FirstNonSpace(r, 0) == 0;
      assert EndNonSpace(r, |r|) == |r|;
      assert r[0..|r|] == r;
    }
  }

  // ---------------------------------------------------------------------------
  // ::tolower, atoi, toBool

  /** ::tolower in the C locale. */
  function LowerChar(c: char): char {
    if 'A' <= c <= 'Z' then (c as int + 32) as char else c
  }

  /** std::transform(v.begin(), v.end(), v.begin(), ::tolower). */
  function ToLower(s: string): (r: string)
    ensures |r| == |s|
    ensures forall i :: 0 <= i < |s| ==> r[i] == LowerChar(s[i])
  {
    seq(|s|, i requires 0 <= i < |s| => LowerChar(s[i]))
  }

  function DigitPrefixLen(s: string): (k: nat)
    ensures k <= |s|
    ensures forall i :: 0 <= i < k ==> IsDigit(s[i])
    ensures k < |s| ==> !IsDigit(s[k])
  {
    if s == [] || !IsDigit(s[0]) then 0 else 1 + DigitPrefixLen(s[1..])
  }

  /** The decimal value of a string of digits, most significant first. */
  function DecimalValue(d: string): nat
    requires forall i :: 0 <= i < |d| ==> IsDigit(d[i])
  {
    if d == [] then 0
    else
      var last := d[|d| - 1];
      assert IsDigit(last);
      10 * DecimalValue(d[..|d| - 1]) + (last as int - '0' as int)
  }

  function LeadingDigits(s: string): nat {
    DecimalValue(s[..DigitPrefixLen(s)])
  }

  /** atoi: leading whitespace, an optional sign, then the longest run of
      decimal digits; 0 when there are none. The integer is unbounded here. */
  function Atoi(s: string): int {
    var i := FirstNonSpace(s, 0);
    if i < |s| && s[i] == '-' then -(LeadingDigits(s[i + 1..]) as int)
    else if i < |s| && s[i] == '+' then LeadingDigits(s[i + 1..])
    else LeadingDigits(s[i..])
  }

  /** The decimal text of a natural number, the inverse partner of Atoi. */
  function DecimalText(n: nat): (d: string)
    ensures |d| > 0
    ensures forall i :: 0 <= i < |d| ==> IsDigit(d[i])
  {
    var last := ['0' + ((n % 10) as char)];
    if n < 10 then last else DecimalText(n / 10) + last
  }

  lemma {:induction false} DecimalRoundTrip(n: nat)
    ensures DecimalValue(DecimalText(n)) == n
  {
    var d := DecimalText(n);
    if n >= 10 {
      DecimalRoundTrip(n / 10);
      assert d[..|d| - 1] == DecimalText(n / 10);
    }
  }

  lemma {:induction false} DigitPrefixAll(d: string)
    requires forall i :: 0 <= i < |d| ==> IsDigit(d[i])
    ensures DigitPrefixLen(d) == |d|
  {
    if d != [] {
      DigitPrefixAll(d[1..]);
    }
  }

  /** atoi reads back the decimal text of any integer, with or without a
      sign and leading whitespace. */
  lemma AtoiDecimal(ws: string, n: int)
    requires AllSpace(ws)
    ensures Atoi(ws + (if n < 0 then "-" else "") + DecimalText(if n < 0 then -n else n)) == n
  {
    var m: nat := if n < 0 then -n else n;
    var d := DecimalText(m);
    var sign := if n < 0 then "-" else "";
    var s := ws + sign + d;
    assert FirstNonSpace(s, 0) == |ws| by {
      FirstNonSpaceIs(s, 0);
      assert forall j :: 0 <= j < |ws| ==> s[j] == ws[j];
      assert !IsSpace(s[|ws|]);
    }
    DigitPrefixAll(d);
    DecimalRoundTrip(m);
    assert d[..|d|] == d;
    if n < 0 {
      assert s[|ws|] == '-';
      assert s[|ws| + 1..] == d;
    } else {
      assert s[|ws|] == d[0];
      assert s[|ws|..] == d;
      assert d[..|d|] == d;
    }
  }

  lemma {:induction false} LowerFirstNonSpace(s: string, i: nat)
    requires i <= |s|
    ensures FirstNonSpace(ToLower(s), i) == FirstNonSpace(s, i)
    decreases |s| - i
  {
    if i < |s| && IsSpace(s[i]) {
      LowerFirstNonSpace(s, i + 1);
    }
  }

  lemma {:induction false} LowerDigitPrefix(s: string)
    ensures DigitPrefixLen(ToLower(s)) == DigitPrefixLen(s)
    ensures ToLower(s)[..DigitPrefixLen(s)] == s[..DigitPrefixLen(s)]
  {
    if s != [] && IsDigit(s[0]) {
      assert ToLower(s)[1..] == ToLower(s[1..]);
      LowerDigitPrefix(s[1..]);
    }
  }

  /** Lower-casing leaves whitespace, signs and digits alone, so atoi does
      not see it. */
  lemma AtoiIgnoresCase(s: string)
    ensures Atoi(ToLower(s)) == Atoi(s)
  {
    var t := ToLower(s);
    LowerFirstNonSpace(s, 0);
    var i := FirstNonSpace(s, 0);
    assert t[i..] == ToLower(s[i..]);
    LowerDigitPrefix(s[i..]);
    if i < |s| {
      assert t[i + 1..] == ToLower(s[i + 1..]);
      LowerDigitPrefix(s[i + 1..]);
    }
  }

  const TrueWords: set<string> := {"true", "yes", "enable", "on", "+", "t"}
  const FalseWords: set<string> := {"false", "no", "disable", "off", "-", "f"}

  /** The word table of toBool, tried in the source's order on a lower-cased word. */
  function BoolWord(w: string): (r: Option<bool>)
    ensures w in TrueWords ==> r == Some(true)
    ensures w in FalseWords ==> r == Some(false)
    ensures w !in TrueWords && w !in FalseWords ==> r == None
  {
    if w == "true" then Some(true)
    else if w == "false" then Some(false)
    else if w == "yes" then Some(true)
    else if w == "no" then Some(false)
    else if w == "enable" then Some(true)
    else if w == "disable" then Some(false)
    else if w == "on" then Some(true)
    else if w == "off" then Some(false)
    else if w == "+" then Some(true)
    else if w == "-" then Some(false)
    else if w == "t" then Some(true)
    else if w == "f" then Some(false)
    else None
  }

  /** toBool: the word table, compared case-insensitively, and otherwise
      whether atoi reads a non-zero integer. */
  function ToBool(v: string): (b: bool)
    ensures ToLower(v) in TrueWords ==> b
    ensures ToLower(v) in FalseWords ==> !b
    ensures ToLower(v) !in TrueWords && ToLower(v) !in FalseWords ==> (b <==> Atoi(v) != 0)
  {
    var w := ToLower(v);
    AtoiIgnoresCase(v);
    match BoolWord(w)
    case Some(b) => b
    case None => Atoi(w) != 0
  }

  lemma ToLowerIdempotent(s: string)
    ensures ToLower(ToLower(s)) == ToLower(s)
  {
    assert forall i :: 0 <= i < |s| ==> LowerChar(LowerChar(s[i])) == LowerChar(s[i]);
  }

  /** toBool gives the same answer for any spelling that lower-cases to the same word. */
  lemma ToBoolIgnoresCase(u: string, v: string)
    requires ToLower(u) == ToLower(v)
    ensures ToBool(u) == ToBool(v)
  {
    AtoiIgnoresCase(u);
    AtoiIgnoresCase(v);
  }

  // ---------------------------------------------------------------------------
  // relPath

  /** The length of curF's prefix up to and including its last '/', or 0 when
      curF has no '/': what survives curF.erase(find(rbegin, rend, '/').base(), end). */
  function DirPrefixLen(f: string): (k: nat)
    ensures k <= |f|
    ensures k > 0 ==> f[k - 1] == '/'
    ensures forall i :: k <= i < |f| ==> f[i] != '/'
    ensures k == 0 <==> '/' !in f
  {
    if f == [] then 0
    else if f[|f| - 1] == '/' then |f|
    else
      var k := DirPrefixLen(f[..|f| - 1]);
      assert '/' in f <==> '/' in f[..|f| - 1] by {
        assert f == f[..|f| - 1] + [f[|f| - 1]];
      }
      k
  }

  predicate IsAbsolute(file: string) {
    |file| > 0 && file[0] == '/'
  }

  /** relPath: an include path resolved against the file being parsed. */
  function RelPath(file: string, curF: string): (r: string)
    ensures IsAbsolute(file) ==> r == file
    ensures '/' !in curF ==> r == file
    ensures !IsAbsolute(file) && '/' in curF ==> r == curF[..DirPrefixLen(curF)] + "/" + file
  {
    if IsAbsolute(file) then file
    else
      var dir := curF[..DirPrefixLen(curF)];
      if dir == "" then file else dir + "/" + file
  }

  /** The directory kept by relPath already ends in '/', so the resolved path
      holds a doubled slash right after it. */
  lemma RelPathDoubledSlash(file: string, curF: string)
    requires !IsAbsolute(file) && '/' in curF
    ensures var k := DirPrefixLen(curF);
      var r := RelPath(file, curF);
      |r| == k + 1 + |file| && r[k - 1] == '/' && r[k] == '/' && r[k + 1..] == file
  {
  }

  // ---------------------------------------------------------------------------
  // the splitting behind getStrArr

  /** std::string::find(c, from). */
  function Find(s: string, c: char, from: nat): (p: Option<nat>)
    requires from <= |s|
    ensures p.Some? ==> from <= p.value < |s| && s[p.value] == c
    decreases |s| - from
  {
    if from == |s| then None
    else if s[from] == c then Some(from)
    else Find(s, c, from + 1)
  }

  /** find returns the first occurrence at or after from, npos when there is none. */
  lemma {:induction false} FindFirst(s: string, c: char, from: nat)
    requires from <= |s|
    ensures Find(s, c, from).Some? ==> forall j :: from <= j < Find(s, c, from).value ==> s[j] != c
    ensures Find(s, c, from).None? ==> forall j :: from <= j < |s| ==> s[j] != c
    decreases |s| - from
  {
    if from < |s| && s[from] != c {
      FindFirst(s, c, from + 1);
    }
  }

  /** The pieces of s from position l on, each ended by a del; whatever
      follows the last del is dropped. */
  function Tokens(s: string, del: char, l: nat): seq<string>
    requires l <= |s|
    decreases |s| - l
  {
    var p := Find(s, del, l);
    if p.None? then [] else [s[l..p.value]] + Tokens(s, del, p.value + 1)
  }

  /** No token contains the delimiter. */
  lemma {:induction false} TokensFree(s: string, del: char, l: nat)
    requires l <= |s|
    ensures forall t :: t in Tokens(s, del, l) ==> del !in t
    decreases |s| - l
  {
    FindFirst(s, del, l);
    var p := Find(s, del, l);
    if p.Some? {
      TokensFree(s, del, p.value + 1);
      assert del !in s[l..p.value];
    }
  }

  /** The pieces of v between delimiters: the tokens of v + del. */
  function Pieces(v: string, del: char): seq<string> {
    Tokens(v + [del], del, 0)
  }

  function Join(ps: seq<string>, del: char): string {
    if ps == [] then "" else if |ps| == 1 then ps[0] else ps[0] + [del] + Join(ps[1..], del)
  }

  lemma {:induction false} TokensJoin(v: string, del: char, l: nat)
    requires l <= |v|
    ensures |Tokens(v + [del], del, l)| > 0
    ensures Join(Tokens(v + [del], del, l), del) == v[l..]
    decreases |v| - l
  {
    var s := v + [del];
    assert s[|v|] == del;
    FindFirst(s, del, l);
    var p := Find(s, del, l).value;
    assert s[l..p] == v[l..p];
    if p == |v| {
      assert Find(s, del, p + 1).None?;
      assert v[l..p] == v[l..];
    } else {
      TokensJoin(v, del, p + 1);
      assert v[l..] == v[l..p] + [del] + v[p + 1..];
    }
  }

  /** Joining the pieces with del gives back the value: nothing is lost
      before trimming. */
  lemma PiecesJoin(v: string, del: char)
    ensures |Pieces(v, del)| > 0
    ensures Join(Pieces(v, del), del) == v
  {
    TokensJoin(v, del, 0);
    assert v[0..] == v;
  }

  /** A piece as getStrArr keeps it: trimmed, and dropped when that leaves
      nothing. */
  function Keep(t: string): (r: seq<string>)
    ensures |r| <= 1
  {
    var tk := Trim(t);
    if tk != "" then [tk] else []
  }

  /** Trim each piece and keep the non-empty ones, in order. */
  function Clean(ps: seq<string>): (r: seq<string>)
    ensures |r| <= |ps|
  {
    if ps == [] then [] else Keep(ps[0]) + Clean(ps[1..])
  }

  lemma AppendAssoc(a: seq<string>, b: seq<string>, c: seq<string>)
    ensures (a + b) + c == a + (b + c)
  {
  }

  /** What Clean keeps is non-empty and already trimmed. */
  lemma {:induction false} CleanElements(ps: seq<string>)
    ensures forall t :: t in Clean(ps) ==> t != "" && Trim(t) == t
  {
    if ps != [] {
      CleanElements(ps[1..]);
      TrimIdempotent(ps[0]);
    }
  }

  lemma CleanCons(t: string, ps: seq<string>)
    ensures Clean([t] + ps) == Keep(t) + Clean(ps)
  {
    assert ([t] + ps)[0] == t && ([t] + ps)[1..] == ps;
  }

  /** The result of getStrArr for a stored value v. */
  function SplitTrim(v: string, del: char): seq<string> {
    Clean(Pieces(v, del))
  }

  /** The pieces getStrArr's loop collects from position l of s on. */
  function SplitFrom(s: string, del: char, l: nat): seq<string>
    requires l <= |s|
    decreases |s| - l
  {
    var p := Find(s, del, l);
    if p.None? then [] else Keep(s[l..p.value]) + SplitFrom(s, del, p.value + 1)
  }

  /** Collecting from l on is cleaning the tokens from l on. */
  lemma {:induction false} SplitFromTokens(s: string, del: char, l: nat)
    requires l <= |s|
    ensures SplitFrom(s, del, l) == Clean(Tokens(s, del, l))
    decreases |s| - l
  {
    var p := Find(s, del, l);
    if p.Some? {
      SplitFromTokens(s, del, p.value + 1);
      CleanCons(s[l..p.value], Tokens(s, del, p.value + 1));
    }
  }

  /** One turn of getStrArr's loop keeps the collected pieces a prefix of
      the whole result. */
  lemma SplitFromStep(s: string, del: char, l: nat, p: nat, ret: seq<string>)
    requires l <= |s| && Find(s, del, l) == Some(p)
    ensures (ret + Keep(s[l..p])) + SplitFrom(s, del, p + 1) == ret + SplitFrom(s, del, l)
  {
    assert SplitFrom(s, del, l) == Keep(s[l..p]) + SplitFrom(s, del, p + 1);
    AppendAssoc(ret, Keep(s[l..p]), SplitFrom(s, del, p + 1));
  }

  /** getStrArr's loop, run over the whole of v + del, yields SplitTrim. */
  lemma SplitTrimFrom(v: string, del: char)
    ensures SplitFrom(v + [del], del, 0) == SplitTrim(v, del)
  {
    SplitFromTokens(v + [del], del, 0);
  }

  /** Trimming removes characters, it never brings one in. */
  lemma TrimKeepsOut(t: string, c: char)
    requires c !in t
    ensures c !in Trim(t)
  {
    TrimInfix(t);
    var a, b :| 0 <= a <= b <= |t| && Trim(t) == t[a..b];
    assert forall i :: 0 <= i < b - a ==> t[a..b][i] == t[a + i];
  }

  lemma {:induction false} CleanNoDelimiter(ps: seq<string>, del: char)
    requires forall t :: t in ps ==> del !in t
    ensures forall t :: t in Clean(ps) ==> del !in t
  {
    if ps != [] {
      CleanNoDelimiter(ps[1..], del);
      TrimKeepsOut(ps[0], del);
    }
  }

  /** The elements getStrArr returns are non-empty, trimmed and free of the delimiter. */
  lemma SplitTrimElements(v: string, del: char)
    ensures forall t :: t in SplitTrim(v, del) ==> t != "" && Trim(t) == t && del !in t
  {
    TokensFree(v + [del], del, 0);
    CleanNoDelimiter(Pieces(v, del), del);
    CleanElements(Pieces(v, del));
  }
}
