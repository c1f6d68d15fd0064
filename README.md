# configparser in Dafny

A model of the configuration-file parser of `configparser`:

- the one-pass, ten-state automaton that reads a file character by character;
- the merge of parsed blocks into the section index `_secs` and the block vector `_kvs`;
- the string helpers and the typed getters built on top of them.

Both parsers of the repository are modelled. `config_file_parser` (src/config_file_parser.cpp) supports `<path>` include directives. The older `ConfigFileParser` (ConfigFileParser.cpp) is the same automaton without includes: there a top-level `<` is a "header or key" error. One automaton, `Automaton.Step`, serves both, selected by a `Dialect` (`Current` or `Legacy`).

## Layout

- `text.dfy` (module `ConfigText`) holds the pure helpers:
  - `isKeyChar`, `std::isspace`, `trim`;
  - `::tolower`, `atoi` and `toBool`;
  - `relPath`;
  - the split-trim-drop-empties specification of `getStrArr`.
- `headers.dfy` (module `HeaderSet`) models the `std::set<std::string>` of pending header names. It is a strictly ordered, duplicate-free sequence, so the flush visits names in the order `std::set` iterates them.
- `store.dfy` (module `ConfigStore`) holds:
  - `Val`, `KeyVals` and `Store` (the pair `_secs`, `_kvs`);
  - `updateVals`;
  - the flush loop that merges one pending block into every pending header (`Flush`);
  - its properties: the index stays a bijection; merged sections gain the new keys and keep the others; no section is lost.
- `automaton.dfy` (module `Automaton`) is the specification of `parse(istream, path)`, written as functions:
  - `Read` reads one character, turning a `#` comment into a line break;
  - `Advance` moves the line and position counters;
  - one function per state: `InIdle`, `InHeader`, `InHeaderKey`, `AwaitCommaOrEnd`, `InKey`, `AwaitValue`, `InValue`, `Hang`, `HangEnd`, `InInclude`;
  - `Dispatch` and `Step`;
  - the end-of-input check and final flush (`Finish`);
  - `Scan`, the loop over the input, which parses included files recursively through `ParseFile`.

  These functions carry only the invariant that the store stays indexed. What they compute is stated by the lemmas in `transitions.dfy` and `properties.dfy`, and by the methods proved equal to them.
- `parser.dfy` (module `ConfigParser`) holds the class `ConfigFileParser`, with the fields `secs` and `kvs`:
  - its `parse` loop, `updateVals` and flush loop are imperative methods, each proved equal to the specification functions;
  - `hasKey` and the getters read the fields;
  - the `getStrArr`, `getIntArr` and `getBoolArr` loops are methods proved against the split specification.
- `properties.dfy` (module `ParserProperties`) proves invariants that hold over whole parses, includes included:
  - `_secs` stays a bijection onto the indices of `_kvs`;
  - no section or key is ever lost;
  - every section name and key is made of key characters, and keys are non-empty.
- `transitions.dfy` (module `Transitions`) gives one lemma per behaviour of the automaton: errors and their positions, header groups, includes, value folding and the end of input.
- `scenarios.dfy` (module `Scenarios`) works whole parses of short inputs out exactly.

Behaviours a reader of the grammar might not expect:

- `k = v` is rejected. A blank between a key and its `:` or `=` is a "key/value" error (`Scenarios.BlankBeforeSeparator`).
- After a value line, only `[` and key characters start something new. A `<` at the start of a line continues the value (`Transitions.LineStartOther`).
- A blank line does not end a folded value.
- A value committed at the end of input is not trimmed, and an empty one is dropped (`Scenarios.CommentAtEnd`, `Transitions.EndCommitsUntrimmed`).
- A line break does not end a header: after `[sec` and a line break, a `,` or `]` on a later line continues it (`Scenarios.HeaderContinued`), any other character is a "next header oder header end" error at that character (`Scenarios.HeaderInterrupted`), and an end of input there fails with ("character", "<EOF>") (`Scenarios.HeaderUnclosed`).
- A key repeated within one block keeps its last value (`Scenarios.RepeatedKey`).
- No parse/print round trip is stated: `toString` writes `k = v`, which the parser rejects.

## Model

| member | source | states |
|---|---|---|
| ConfigText.FirstNonSpaceIs | src/config_file_parser.cpp:371 | find_first_not_of: every character before the result is whitespace, and the one at the result is not |
| ConfigText.EndNonSpaceIs | src/config_file_parser.cpp:372 | find_last_not_of: every character after the result is whitespace, and the one before it is not |
| ConfigText.Trim | src/config_file_parser.cpp:369-375 | trim never lengthens its input |
| ConfigText.TrimEnds | src/config_file_parser.cpp:369-375 | trim is empty iff the input is all whitespace; otherwise it neither starts nor ends with whitespace |
| ConfigText.TrimInfix | src/config_file_parser.cpp:369-375 | trim is a contiguous slice of its input with only whitespace cut off either side |
| ConfigText.TrimIdempotent | src/config_file_parser.cpp:369-375 | trimming twice is trimming once |
| ConfigText.ToLower | src/config_file_parser.cpp:278 | std::transform with ::tolower keeps the length and lowers each ASCII letter |
| ConfigText.DigitPrefixLen | src/config_file_parser.cpp:293 | the longest run of decimal digits at the start of a string |
| ConfigText.AtoiDecimal | src/config_file_parser.cpp:293 | atoi reads back any integer written in decimal after leading whitespace, with a '-' for negatives |
| ConfigText.AtoiIgnoresCase | src/config_file_parser.cpp:278 | lowering the string before atoi does not change the number |
| ConfigText.BoolWord | src/config_file_parser.cpp:280-291 | the twelve words map to true (true, yes, enable, on, +, t) or false (false, no, disable, off, -, f); nothing else has a word value |
| ConfigText.ToBool | src/config_file_parser.cpp:276-294 | toBool: a true word gives true, a false word false, matched after lowering; anything else gives atoi(v) != 0 |
| ConfigText.ToLowerIdempotent | src/config_file_parser.cpp:278 | lowering twice is lowering once |
| ConfigText.ToBoolIgnoresCase | src/config_file_parser.cpp:276-294 | two values that agree after lowering give the same boolean |
| ConfigText.DirPrefixLen | src/config_file_parser.cpp:421 | the erase keeps the prefix up to and including the last '/', and nothing when there is none |
| ConfigText.RelPath | src/config_file_parser.cpp:415-425 | relPath: an absolute path passes unchanged; so does any path when the current file has no '/'; otherwise the result is the directory prefix, then "/", then the path |
| ConfigText.RelPathDoubledSlash | src/config_file_parser.cpp:421-424 | a relative path resolved against "dir/f" has two slashes, "dir//path" |
| ConfigText.Find | src/config_file_parser.cpp:303 | string::find from l: a found position holds the delimiter and is not before l |
| ConfigText.FindFirst | src/config_file_parser.cpp:303 | string::find returns the first occurrence, and npos only when there is none |
| ConfigText.TokensFree | src/config_file_parser.cpp:303-306 | no piece cut at the delimiter contains it |
| ConfigText.TokensJoin | src/config_file_parser.cpp:301-306 | the pieces of v + del, joined with del again, give back the rest of v |
| ConfigText.PiecesJoin | src/config_file_parser.cpp:301-306 | cutting v + del at every del loses nothing: joining the pieces gives v |
| ConfigText.Clean | src/config_file_parser.cpp:304-305 | trimming and dropping empty pieces never adds pieces |
| ConfigText.CleanElements | src/config_file_parser.cpp:304-305 | every kept piece is non-empty and already trimmed |
| ConfigText.SplitFromTokens | src/config_file_parser.cpp:303-307 | what getStrArr's loop collects from l on is the trimmed non-empty pieces from l on |
| ConfigText.SplitFromStep | src/config_file_parser.cpp:303-307 | one turn of getStrArr's loop: the trimmed piece up to the next delimiter, if non-empty, then the rest |
| ConfigText.SplitTrimFrom | src/config_file_parser.cpp:301-307 | the loop over getStr(...) + del from position 0 is the split-trim of the value |
| ConfigText.TrimKeepsOut | src/config_file_parser.cpp:304 | trim adds no character, so a piece free of the delimiter stays free of it |
| ConfigText.SplitTrimElements | src/config_file_parser.cpp:297-310 | every piece getStrArr returns is non-empty, trimmed and free of the delimiter |
| HeaderSet.LessIrreflexive | src/config_file_parser.cpp:61 | the string order of std::set is irreflexive |
| HeaderSet.LessTransitive | src/config_file_parser.cpp:61 | the string order of std::set is transitive |
| HeaderSet.LessTotal | src/config_file_parser.cpp:61 | two different strings are ordered one way or the other |
| HeaderSet.Insert | src/config_file_parser.cpp:144 | headers.insert: the result holds the old names and the new one; inserting a present name changes nothing, a new one adds exactly one |
| HeaderSet.Place | src/config_file_parser.cpp:144 | a new name is placed among the old ones, adding exactly one |
| HeaderSet.PlaceOrdered | src/config_file_parser.cpp:144 | placing a new name keeps the set sorted |
| HeaderSet.InsertOrdered | src/config_file_parser.cpp:101 | headers.insert keeps the set sorted and duplicate-free |
| ConfigStore.UpdateVals | src/config_file_parser.cpp:407-412 | updateVals: only block sec changes; it gains the incoming keys with their values and keeps every other key |
| ConfigStore.MergeHeader | src/config_file_parser.cpp:87-92 | one header of the flush: an existing section keeps its index; a new one gets index size() and the block is pushed; every old index is unchanged |
| ConfigStore.MergeHeaderOneToOne | src/config_file_parser.cpp:87-92 | one header's merge keeps _secs one-to-one |
| ConfigStore.MergeHeaderBijective | src/config_file_parser.cpp:87-92 | one header's merge keeps _secs a bijection onto the indices of _kvs |
| ConfigStore.Flush | src/config_file_parser.cpp:86-93 | after the flush loop every pending header is a section and every old section keeps its index |
| ConfigStore.FlushStep | src/config_file_parser.cpp:86-93 | the flush loop is the first header's merge followed by the flush of the rest |
| ConfigStore.FlushBijective | src/config_file_parser.cpp:86-93 | the flush loop keeps _secs a bijection onto the indices of _kvs |
| ConfigStore.MergeHeaderSections | src/config_file_parser.cpp:87-92 | seen as a map from name to block, one header's merge updates that section with the block (incoming keys win), or creates it |
| ConfigStore.MergeExistingSections | src/config_file_parser.cpp:88 | for an existing section, updateVals adds the block to that section and changes no other |
| ConfigStore.MergeNewSections | src/config_file_parser.cpp:90-91 | for a new section, the pushed block becomes that section and no other changes |
| ConfigStore.FlushAsMap | src/config_file_parser.cpp:86-93 | seen as a map from name to block, the flush is the headers' merges in turn |
| ConfigStore.FlushMapInto | src/config_file_parser.cpp:86-93 | the merges in turn give exactly: old and pending sections, each pending one updated with the block, the others unchanged |
| ConfigStore.FlushSections | src/config_file_parser.cpp:241-248 | the flush leaves the old sections and the pending headers; each pending header's section is its old block updated by the pending one, or the pending block; the rest are unchanged |
| ConfigStore.FlushedIntoStep | src/config_file_parser.cpp:86-93 | merging the first header and then flushing the rest is a flush of all headers |
| ConfigStore.FlushGrows | src/config_file_parser.cpp:86-93 | a flush loses no section and no key |
| ConfigStore.GrowsTransitive | src/config_file_parser.cpp:58-249 | losing no section and no key composes across steps |
| Automaton.AfterLine | src/config_file_parser.cpp:72 | is.ignore(max, '\n'): the stream moves past the next line break, or to the end, skipping no line break on the way |
| Automaton.Read | src/config_file_parser.cpp:68-74 | one character read: never '#'; a '#' reads as a line break and reading resumes past the end of its line (AfterLine); anything else is read as is, with the next character after it |
| Automaton.ScanTurn | src/config_file_parser.cpp:68-230 | unfolding lemma for the proofs: one turn of the loop: a thrown error ends the parse with the store as it is; an include parses the target into the store, or ends the parse with its error; otherwise the loop goes on |
| Automaton.ScanIncluded | src/config_file_parser.cpp:112-115 | unfolding lemma for the proofs: the parse goes on after '>' with the store the included file left, unless that file failed |
| Automaton.ScanNext | src/config_file_parser.cpp:68-230 | unfolding lemma for the proofs: a character that is not '#' and does not end the parse moves the loop on by one |
| Automaton.ScanThrow | src/config_file_parser.cpp:106-107 | unfolding lemma for the proofs: a thrown character error ends the parse with the store as it is |
| Automaton.ScanEnd | src/config_file_parser.cpp:233-248 | unfolding lemma for the proofs: at the end of the input the loop hands over to the end-of-input check and the final flush |
| ConfigParser.Ignore | src/config_file_parser.cpp:72 | is.ignore's loop ends past the next line break, or at the end |
| ConfigParser.Get | src/config_file_parser.cpp:68-74 | is.get, then the comment skip, compute Read |
| ConfigParser.Split | src/config_file_parser.cpp:297-310 | getStrArr's while loop returns the trimmed non-empty pieces of the value, in order |
| ConfigParser.ToInts | src/config_file_parser.cpp:316-321 | getIntArr's loop returns atoi of every piece, in order |
| ConfigParser.ToBools | src/config_file_parser.cpp:340-345 | getBoolArr's loop returns toBool of every piece, in order |
| ConfigParser.ConfigFileParser.constructor | src/config_file_parser.cpp:33-36 | a new parser has no sections and no blocks |
| ConfigParser.ConfigFileParser.UpdateVals | src/config_file_parser.cpp:407-412 | the loop writes the block into _kvs[sec] as ConfigStore.UpdateVals says |
| ConfigParser.ConfigFileParser.FlushHeaders | src/config_file_parser.cpp:86-93 | the for loop over the headers leaves the store Flush describes |
| ConfigParser.ConfigFileParser.Open | src/config_file_parser.cpp:46-55 | parse(path): a missing file is a file error with the store untouched; otherwise the file is parsed as ParseFile says |
| ConfigParser.ConfigFileParser.Run | src/config_file_parser.cpp:58-249 | parse(istream, path): the loop leaves the store and error ParseText describes |
| ConfigParser.ConfigFileParser.Include | src/config_file_parser.cpp:112-115 | '>' parses the target file into this parser; at depth 0 it stops with a depth error |
| ConfigParser.ConfigFileParser.Finish | src/config_file_parser.cpp:233-248 | end of input: the state check, the untrimmed commit and the last flush, as Automaton.Finish says |
| ConfigParser.ConfigFileParser.Transit | src/config_file_parser.cpp:79-230 | the switch on the state: an error leaves the store as it was; otherwise the new locals and store are those Dispatch gives, and '>' returns the include target |
| ConfigParser.ConfigFileParser.Parse | src/config_file_parser.cpp:46-55 | parse(path) of config_file_parser, includes on: the store and error are those ParseFile gives for the file |
| ConfigParser.ConfigFileParser.ParseStream | src/config_file_parser.cpp:58-249 | parse(istream, path) of config_file_parser, includes on: the store and error are those ParseText gives for the text |
| ConfigParser.ConfigFileParser.ParseStr | src/config_file_parser.cpp:38-43 | parseStr parses the string under the name "<string literal>" |
| ConfigParser.ConfigFileParser.ParseLegacy | ConfigFileParser.cpp:19-200 | the legacy parse(path): the same automaton without includes |
| ConfigParser.ConfigFileParser.HasKey | src/config_file_parser.cpp:396-404 | hasKey is true iff the section exists and its block has the key |
| ConfigParser.ConfigFileParser.GetSecs | src/config_file_parser.cpp:378-381 | getSecs names exactly the sections, each with the index of its block |
| ConfigParser.ConfigFileParser.GetKeyVals | src/config_file_parser.cpp:390-393 | getKeyVals returns the section's block |
| ConfigParser.ConfigFileParser.GetVal | src/config_file_parser.cpp:384-387 | getVal returns the stored val of the key in the section |
| ConfigParser.ConfigFileParser.GetStr | src/config_file_parser.cpp:252-255 | getStr returns the stored text |
| ConfigParser.ConfigFileParser.GetInt | src/config_file_parser.cpp:258-261 | getInt is atoi of the stored text |
| ConfigParser.ConfigFileParser.GetBool | src/config_file_parser.cpp:270-273 | getBool is toBool of the stored text |
| ConfigParser.ConfigFileParser.GetStrArr | src/config_file_parser.cpp:297-310 | getStrArr is the split-trim of the stored text |
| ConfigParser.ConfigFileParser.GetIntArr | src/config_file_parser.cpp:313-322 | getIntArr is atoi of every piece of getStrArr, in order |
| ConfigParser.ConfigFileParser.GetBoolArr | src/config_file_parser.cpp:337-346 | getBoolArr is toBool of every piece of getStrArr, in order |
| ParserProperties.FlushSound | src/config_file_parser.cpp:86-93 | flushing well-named headers and keys keeps the index a bijection and every name well formed, and loses nothing |
| ParserProperties.FlushPendingSound | src/config_file_parser.cpp:82-98 | the commit and flush before '[' or '<' keep the store sound and lose nothing; the cleared locals are consistent again |
| ParserProperties.AdvanceSound | src/config_file_parser.cpp:69-78 | moving the counters changes neither the state nor the store |
| ParserProperties.IdleSound | src/config_file_parser.cpp:80-107 | state NONE keeps the store sound, loses nothing, and keeps the locals consistent |
| ParserProperties.HeaderSound | src/config_file_parser.cpp:121-156 | the header states, with their fall-through, keep the store sound and lose nothing; every name they add to the header set is non-empty and made of key characters |
| ParserProperties.KeySound | src/config_file_parser.cpp:157-170 | IN_KEY_VAL_KEY keeps the key a non-empty run of key characters |
| ParserProperties.ValueSound | src/config_file_parser.cpp:172-185 | the value states keep the store and the pending key as they are, and keep the store sound |
| ParserProperties.HangSound | src/config_file_parser.cpp:186-218 | IN_KEY_VAL_VAL_HANG keeps the store sound and loses nothing, whether it commits, flushes or goes on |
| ParserProperties.NewKeySound | src/config_file_parser.cpp:207-214 | committing the pending pair and starting a new key keeps the locals consistent |
| ParserProperties.StepSound | src/config_file_parser.cpp:68-230 | every character, in either parser, keeps the store sound, loses nothing, and keeps the locals consistent |
| ParserProperties.FinishSound | src/config_file_parser.cpp:233-248 | the end of input keeps the store sound and loses nothing |
| ParserProperties.ScanSound | src/config_file_parser.cpp:68-231 | the whole loop, includes included, keeps the store sound and loses nothing |
| ParserProperties.IncludeSound | src/config_file_parser.cpp:112-115 | parsing an included file and going on after '>' keeps the store sound and loses nothing |
| ParserProperties.FileSound | src/config_file_parser.cpp:46-55 | parse(path) keeps _secs a bijection onto _kvs and every name made of key characters, and loses no section or key |
| ParserProperties.TextSound | src/config_file_parser.cpp:58-249 | parse(istream, path) keeps _secs a bijection onto _kvs and every name made of key characters, and loses no section or key |
| Transitions.SpaceBeforeSeparator | src/config_file_parser.cpp:157-170 | whitespace after a key is a "key/value" error at the counters after that character |
| Transitions.SeparatorPosition | src/config_file_parser.cpp:163-167 | ':' or '=' records its own line and position as the value's |
| Transitions.KeyBeforeHeader | src/config_file_parser.cpp:100-105 | a key before any header starts the section "" |
| Transitions.TopLevelError | src/config_file_parser.cpp:106-107 | any other character at top level is a "header or key" error quoting it |
| Transitions.HeaderOpens | src/config_file_parser.cpp:82-98 | '[' flushes the pending block into every pending header and clears headers, block and buffers |
| Transitions.HeaderNameRequired | src/config_file_parser.cpp:121-128 | after '[' or ',' a non-key character is a "header name" error, so [] and [a,] fail |
| Transitions.HeaderEndRequired | src/config_file_parser.cpp:130-156 | after a header name only ',', ']' or whitespace may follow, else "next header oder header end", so [a b] fails |
| Transitions.HeaderNameEnds | src/config_file_parser.cpp:141-154 | ',' or ']' adds the name to the header set, once however often it is named |
| Transitions.IncludeOpens | src/config_file_parser.cpp:82-98 | '<' flushes and clears the pending headers, so later keys without a header go to "" |
| Transitions.IncludePath | src/config_file_parser.cpp:116-118 | in an include directive any character but '>' and a line break is collected |
| Transitions.IncludePathRun | src/config_file_parser.cpp:109-119 | a run of such characters is collected verbatim |
| Transitions.IncludeCloses | src/config_file_parser.cpp:112-115 | '>' resolves the path with relPath and clears it |
| Transitions.IncludeUnclosed | src/config_file_parser.cpp:110-111 | a line break before '>' is the error (">", "<newline>") at the new line's position 1 |
| Transitions.IncludeParsed | src/config_file_parser.cpp:112-115 | '>' parses the resolved file into the same store: a missing file or its error ends the parse, otherwise the parse goes on in NONE with the store it left |
| Transitions.LegacyRejectsInclude | ConfigFileParser.cpp:45-71 | the legacy parser rejects a top-level '<' as "header or key" |
| Transitions.LegacyStep | ConfigFileParser.cpp:44-181 | the legacy parser never enters IN_INC and never includes |
| Transitions.LegacyScanFuel | ConfigFileParser.cpp:33-199 | the legacy loop does not depend on the include depth |
| Transitions.LegacyFileFuel | ConfigFileParser.cpp:19-200 | the legacy parse(path) does not depend on the include depth |
| Transitions.ValueStarts | src/config_file_parser.cpp:172-185 | after the separator a line break goes to the hanging state, other whitespace is skipped, anything else starts the value |
| Transitions.ScanSteps | src/config_file_parser.cpp:68-230 | a run of characters without '#' moves the loop on as the steps over them do |
| Transitions.ValueLine | src/config_file_parser.cpp:178-185 | a value line is collected verbatim up to its line break |
| Transitions.BlankLines | src/config_file_parser.cpp:186-189 | blank lines after a value change nothing but the counters |
| Transitions.WhitespaceLines | src/config_file_parser.cpp:186-225 | whitespace-only lines after a value change nothing but the counters and the hanging state, and after a line break the value hangs again |
| Transitions.IndentSkipped | src/config_file_parser.cpp:220-225 | indentation in IN_KEY_VAL_VAL_HANG_END is skipped |
| Transitions.ContinuationLine | src/config_file_parser.cpp:215-229 | an indented line continues the value, with one blank before it only when the value is non-empty |
| Transitions.NextKey | src/config_file_parser.cpp:207-214 | an unindented key character commits the trimmed value and starts a new key |
| Transitions.NextHeader | src/config_file_parser.cpp:190-205 | '[' at the start of a line commits the trimmed value and flushes |
| Transitions.LineStartOther | src/config_file_parser.cpp:186-229 | any other unindented character, '<' included, continues the value |
| Transitions.EndRejected | src/config_file_parser.cpp:233-236 | the end of input outside NONE and the value states is the error ("character", "<EOF>") |
| Transitions.EndCommitsUntrimmed | src/config_file_parser.cpp:238-248 | a pending pair is stored untrimmed in every pending header at the end of input |
| Transitions.EndDropsEmpty | src/config_file_parser.cpp:238-248 | an empty key or value is dropped at the end of input, yet every pending header becomes a section |
| Transitions.LaterBlockWins | src/config_file_parser.cpp:86-93 | a flushed key overwrites the section's old value; keys not in the block keep theirs |
| Scenarios.BlankBeforeSeparator | src/config_file_parser.cpp:157-170 | "k = v" fails with ("key/value", "' '") at line 1, position 2 and stores nothing |
| Scenarios.LegacyInclude | ConfigFileParser.cpp:45-71 | the legacy parser fails on "<b.conf>" at line 1, position 1 |
| Scenarios.KeyAndColon | src/config_file_parser.cpp:100-105 | reading "k:" or "k=" leaves key "k" awaiting its value at line 1, position 2 |
| Scenarios.OneValue | src/config_file_parser.cpp:58-249 | "k: v" stores v under k in section "", at the position of the ':' |
| Scenarios.EndAfterSeparator | src/config_file_parser.cpp:233-236 | "k:" fails at the end of input |
| Scenarios.EmptyValueDropped | src/config_file_parser.cpp:238-248 | "k:\n" creates section "" with no key |
| Scenarios.Continued | src/config_file_parser.cpp:215-229 | "k: a\n b" stores "a b" |
| Scenarios.ContinuedTail | src/config_file_parser.cpp:215-229 | the indented second line joins the value with one blank |
| Scenarios.Included | src/config_file_parser.cpp:109-119 | "<b.conf>" with b.conf holding "k: v" stores v under k in section "", recorded as coming from b.conf |
| Scenarios.IncludeHead | src/config_file_parser.cpp:82-98 | '<' then the path leave "b.conf" collected |
| Scenarios.IncludePathRead | src/config_file_parser.cpp:116-118 | the characters of the path are collected one by one |
| Scenarios.PathChar | src/config_file_parser.cpp:116-118 | one path character is appended to the collected path |
| Scenarios.IncludeTail | src/config_file_parser.cpp:112-115 | '>' parses b.conf into the store, and the input then ends cleanly |
| Scenarios.CommentAtEnd | src/config_file_parser.cpp:70-78 | "k=a #c" stores "a ": the comment reads as a line break, and the end-of-input commit keeps the blank |
| Scenarios.CommentTail | src/config_file_parser.cpp:238 | the blank, the comment and the end of input leave "a " stored untrimmed |
| Scenarios.HeaderUnclosed | src/config_file_parser.cpp:136-139 | "[s\n" fails with ("character", "<EOF>") at line 2, position 1, not at the line break |
| Scenarios.HeaderLineBreak | src/config_file_parser.cpp:121-139 | "[s" and a line break leave the header open, waiting for ',' or ']' on line 2 |
| Scenarios.HeaderNameBreak | src/config_file_parser.cpp:130-139 | the name "s" is collected, and the line break moves to awaiting ',' or ']' |
| Scenarios.HeaderContinued | src/config_file_parser.cpp:141-153 | "[s\n]" parses to the empty section s: the ']' on line 2 closes the header |
| Scenarios.HeaderInterrupted | src/config_file_parser.cpp:141-155 | "[s\nk" fails with ("next header oder header end", "'k'") at line 2, position 2 and stores nothing |
| Scenarios.RepeatedKey | src/config_file_parser.cpp:207-214 | "k=1\nk=2" keeps only "2" under k, at the position of the second '=' |
| Scenarios.RepeatedKeyFirst | src/config_file_parser.cpp:172-189 | the first value "1" and its line break leave it pending and hanging |
| Scenarios.RepeatedKeyTail | src/config_file_parser.cpp:207-214 | the second "k" commits "1" and starts the key again |
| Scenarios.RepeatedKeyEnd | src/config_file_parser.cpp:238-248 | the end of input commits "2" over the first value |

The getters the legacy class defines (`getStr` to `hasKey`, ConfigFileParser.cpp:203-330), and its `updateVals`, `trim`, `isKeyChar` and `toBool`, are the same code as those of `config_file_parser`, and the same members model them. The legacy header also declares `getKeyVals` (ConfigFileParser.h:91), but ConfigFileParser.cpp never defines it: the legacy class has no such operation, and `ConfigParser.ConfigFileParser.GetKeyVals` models only the one in `config_file_parser`.

## Left out

- Opening files: the file system is a map `files` from path to contents, keyed by the exact path string. A path missing from the map is the file error. There is no path normalisation, so "dir//b.conf" is its own key.
- Include depth: recursion into included files is bounded by a `fuel` count. When it runs out, the parse ends with an `IncludeDepth` error, which the source does not have. Cyclic includes, which do not terminate in the source, are not modelled.
- ConfigParser.ConfigFileParser.ParseLegacy: the legacy parse is given fuel 0, which the lemma `Transitions.LegacyFileFuel` shows makes no difference.
- Exceptions: they are carried as a `ParseError` value (line, position, expected, found, file), with no message text. A failed parse leaves the store as the exception left it.
- `getDouble`, `getDoubleArr` and `atof`: floating point.
- `toString`: it iterates an `unordered_map` in unspecified order, and its output does not parse back.
- ConfigText.Atoi: models `atoi` on unbounded integers, so the undefined behaviour on overflow and the 32-bit `int` range are not modelled.
- ConfigParser.ConfigFileParser.GetInt: returns an unbounded integer for the same reason.
- Character classes: `std::isspace`, `std::isalnum` and `::tolower` are modelled for the C locale and ASCII only.
- Getters on a missing section or key: the source dereferences `end()`, which is undefined. The getters therefore require `hasKey` (`getKeyVals` requires the section), as the source assumes of its callers.
- The specification functions of `Automaton` (`Advance`, `Quote`, `Commit`, `FlushPending`, every per-state function from `InIdle` to `HangEnd`, `Dispatch`, `Step`, `Finish`, `Scan`, `ParseText`, `ParseFile`) have no rows: as functions they state only that the store stays indexed. Their behaviour is stated by the lemmas in `Transitions`, `ParserProperties` and `Scenarios`, and by the methods of `ConfigFileParser` proved equal to them.
