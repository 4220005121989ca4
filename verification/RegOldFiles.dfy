/**
 Registry files by their first line: the ones that are refused, and Windows 3.1 files, whose
 lines each give a key below HKEY_CLASSES_ROOT its default value.
 */
module RegOldFiles {
  import opened Basics
  import opened WideText
  import opened HexCodec
  import opened Registry
  import opened RegImport
  import opened LineReader
  import opened RegExport
  import opened RegChunks
  import opened RegRoundTrip
  import opened RegEdits

  // ------------------------------------------------------------------- refused files

  lemma {:induction false} RunFirstLine(env: Env, head: Text, rest: seq<Text>, erange: bool)
    ensures var o := HeaderFound(Initial(rest, erange), head);
      Run(env, Initial([head] + rest, erange), []) == if o.1.None? then o.0 else Run(env, o.0, o.1.value)
  {
    var start := Initial([head] + rest, erange);
    assert ([head] + rest)[1..] == rest;
    RunStep(env, start, []);
  }

  /**
   A first line that starts with REGEDIT and goes on in an unknown way: nothing is imported, and that
   counts as success. One that starts in any other way: nothing is imported, and that is a failure.
   */
  lemma {:induction false} Refused(env: Env, blanks: Text, s: Text, rest: seq<Text>, erange: bool)
    requires Blanks(blanks) && (s == [] || !IsBlank(s[0]))
    requires s != Wide("REGEDIT") && s != Wide("REGEDIT4") && s != Wide("Windows Registry Editor Version 5.00")
    ensures Import(env, [blanks + s] + rest, erange) == Returned(Wide("REGEDIT") <= s, [])
  {
    hide SkipBlanks, Run;
    HeaderKinds();
    SkipThem(blanks, s);
    RunFirstLine(env, blanks + s, rest, erange);
  }

  // --------------------------------------------------------------- Windows 3.1 files

  /**
   A line of such a file: a key below HKEY_CLASSES_ROOT with a text, or without one, or a line
   that does not start with that class.
   */
  datatype Entry =
    | Text31(names: seq<Text>, gap: Text, text: Text)
    | Bare(names: seq<Text>)
    | Other(line: Text)

  /** Names without blanks, which would end the key. */
  predicate Words(names: seq<Text>) {
    PlainNames(names) && forall i, k :: 0 <= i < |names| && 0 <= k < |names[i]| ==> !IsSpace(names[i][k])
  }

  predicate Proper31(e: Entry) {
    match e
    case Text31(names, gap, text) => Words(names) && Blanks(gap) && gap != [] && Plain(text)
    case Bare(names) => Words(names)
    case Other(line) => Plain(line) && !(CLASSES_ROOT <= line)
  }

  function EntryLine(e: Entry): Text {
    match e
    case Text31(names, gap, text) => Spelled(CLASSES_ROOT, names) + gap + [EQUALS, SPACE] + text
    case Bare(names) => Spelled(CLASSES_ROOT, names)
    case Other(line) => line
  }

  /** The key is there and its default value is the text; other lines do nothing. */
  function Done31(s: Edited, e: Entry): Edited {
    match e
    case Text31(names, _, text) => WithDefault(s, names, text)
    case Bare(names) => WithDefault(s, names, [])
    case Other(_) => s
  }

  const CLASSES_ROOT_HIVE: nat := 2

  function WithDefault(s: Edited, names: seq<Text>, text: Text): Edited {
    WithValue(Edited(Opened(s.store, CLASSES_ROOT_HIVE, names), Some(KeyPath(CLASSES_ROOT_HIVE, names))),
      Value([], REG_SZ, ToBytes(text + [NUL])))
  }

  function AllDone31(s: Edited, es: seq<Entry>): Edited
    decreases |es|
  {
    if es == [] then s else AllDone31(Done31(s, es[0]), es[1..])
  }

  function EntryLines(es: seq<Entry>): seq<Text> {
    if es == [] then [] else [EntryLine(es[0])] + EntryLines(es[1..])
  }

  // ------------------------------------------------------------------ one line

  /** Between the lines of a Windows 3.1 file. */
  ghost predicate Ready31(p: Parser) {
    p.state == Win31Line && p.version == Some(V31) && p.data == Null && p.dataSize == 0 && !p.exited
  }

  lemma {:induction false} NotSpaces(t: Text, names: seq<Text>)
    requires Words(names) && t == Spelled(CLASSES_ROOT, names)
    ensures forall k :: 0 <= k < |t| ==> !IsSpace(t[k])
    decreases |names|
  {
    if names == [] {
      HiveNameIs(2);
    } else {
      var init, last := names[..|names| - 1], names[|names| - 1];
      assert Words(init) by { assert forall n :: n in init ==> n in names; }
      NotSpaces(Spelled(CLASSES_ROOT, init), init);
    }
  }

  lemma {:induction false} WordRunIs(path: Text, rest: Text)
    requires (forall k :: 0 <= k < |path| ==> !IsSpace(path[k])) && (rest == [] || IsSpace(rest[0]))
    ensures WordRun(path + rest) == |path|
  {
    if path == [] {
      assert path + rest == rest;
    } else {
      assert (path + rest)[1..] == path[1..] + rest;
      WordRunIs(path[1..], rest);
    }
  }

  lemma {:induction false} ValueBehind(gap: Text, text: Text)
    requires Blanks(gap) && gap != []
    ensures Win31Value(gap + [EQUALS, SPACE] + text) == text
  {
    var rest, tail := gap + [EQUALS, SPACE] + text, [EQUALS, SPACE] + text;
    assert rest == gap + tail && rest[0] == gap[0];
    SkipThem(gap, tail);
    assert tail[1..] == [SPACE] + text && ([SPACE] + text)[1..] == text;
  }

  lemma {:induction false} ClassFirst(names: seq<Text>, rest: Text)
    ensures CLASSES_ROOT <= Spelled(CLASSES_ROOT, names) + rest
    decreases |names|
  {
    if names != [] {
      var tail := [BACKSLASH] + names[|names| - 1] + rest;
      ClassFirst(names[..|names| - 1], tail);
      assert Spelled(CLASSES_ROOT, names) + rest == Spelled(CLASSES_ROOT, names[..|names| - 1]) + tail;
    }
  }

  lemma {:induction false} KeySpelled31(names: seq<Text>)
    requires PlainNames(names)
    ensures KeyNamed(Spelled(CLASSES_ROOT, names)) == Some(KeyPath(CLASSES_ROOT_HIVE, names)) && Plain(Spelled(CLASSES_ROOT, names))
  {
    HiveNameIs(2);
    FoldIs(CLASSES_ROOT, HiveName(2));
    KeySpelled(CLASSES_ROOT, 2, names);
  }

  /** The parser with the key of a line open and its text in hand. */
  ghost function AtText(p: Parser, path: Text, text: Text, more: seq<Text>): Parser {
    OpenNamed(p.(lines := more), path).(valueName := None, dataType := REG_SZ, data := Line(text), dataSize := 2 * (|text| + 1),
      state := SettingValue)
  }

  lemma {:induction false} RunKeyText(env: Env, p: Parser, names: seq<Text>, rest: Text, text: Text, more: seq<Text>)
    requires Ready31(p) && Words(names) && (rest == [] || IsSpace(rest[0])) && Win31Value(rest) == text
    requires p.lines == [Spelled(CLASSES_ROOT, names) + rest] + more
    ensures Run(env, p, []) == Run(env, AtText(p, Spelled(CLASSES_ROOT, names), text, more), text)
  {
    hide Run, Spelled, Win31Value, KeyNamed;
    var path := Spelled(CLASSES_ROOT, names);
    var line := path + rest;
    ClassFirst(names, rest);
    NotSpaces(path, names);
    WordRunIs(path, rest);
    assert line[..|path|] == path && line[|path|..] == rest && p.lines[1..] == more;
    KeySpelled31(names);
    OpenNamedAs(p.(lines := more), path, KeyPath(CLASSES_ROOT_HIVE, names));
    Take(env, p, [], AtText(p, path, text, more), text);
  }

  lemma {:induction false} AnyPosition31(env: Env, p: Parser, a: Text, b: Text)
    requires p.state == Win31Line
    ensures Run(env, p, a) == Run(env, p, b)
  {
    RunStep(env, p, a);
    RunStep(env, p, b);
  }

  lemma {:induction false} RunSet31(env: Env, p: Parser, text: Text) returns (q: Parser)
    requires p.state == SettingValue && p.version == Some(V31) && !p.exited && p.valueName == None && p.dataType == REG_SZ
    requires p.data == Line(text) && p.dataSize == 2 * (|text| + 1)
    ensures Run(env, p, text) == Run(env, q, []) && Ready31(q) && q.lines == p.lines && q.hkey == p.hkey
    ensures q.calls == p.calls + [SetValue(p.hkey, Value([], REG_SZ, ToBytes(text + [NUL])))]
  {
    hide Run, ToBytes;
    assert Payload(p) == ToBytes(text + [NUL]);
    q := Step(env, p, text).0;
    Take(env, p, text, q, text);
    AnyPosition31(env, q, text, []);
  }

  lemma {:induction false} RunEntryText(env: Env, p: Parser, names: seq<Text>, rest: Text, text: Text, more: seq<Text>, store: Store)
      returns (q: Parser)
    requires Ready31(p) && Words(names) && (rest == [] || IsSpace(rest[0])) && Win31Value(rest) == text
    requires p.lines == [Spelled(CLASSES_ROOT, names) + rest] + more
    ensures Run(env, p, []) == Run(env, q, []) && Ready31(q) && q.lines == more
    ensures Edited(Apply(store, q.calls), q.hkey) == WithDefault(Edited(Apply(store, p.calls), p.hkey), names, text)
  {
    hide Run, Spelled, Win31Value, KeyNamed, Apply, WithValue, Opened, ToBytes, Create;
    var path, k := Spelled(CLASSES_ROOT, names), KeyPath(CLASSES_ROOT_HIVE, names);
    RunKeyText(env, p, names, rest, text, more);
    KeySpelled31(names);
    var at := p.(lines := more);
    OpenNamedAs(at, path, k);
    var mid := AtText(p, path, text, more);
    q := RunSet31(env, mid, text);
    OpenBrings(at, mid, store, Open(CLASSES_ROOT, CLASSES_ROOT_HIVE, names, []));
    PutBrings(mid, q, store, Value([], REG_SZ, ToBytes(text + [NUL])));
  }

  lemma {:induction false} RunOther(env: Env, p: Parser, line: Text, more: seq<Text>) returns (q: Parser)
    requires Ready31(p) && !(CLASSES_ROOT <= line) && p.lines == [line] + more
    ensures Run(env, p, []) == Run(env, q, []) && Ready31(q) && q.lines == more && q.calls == p.calls && q.hkey == p.hkey
  {
    hide Run;
    q := p.(lines := more);
    assert p.lines[1..] == more;
    Take(env, p, [], q, line);
    AnyPosition31(env, q, line, []);
  }

  lemma {:induction false} RunEntry(env: Env, p: Parser, e: Entry, more: seq<Text>, store: Store) returns (q: Parser)
    requires Ready31(p) && Proper31(e) && p.lines == [EntryLine(e)] + more
    ensures Run(env, p, []) == Run(env, q, []) && Ready31(q) && q.lines == more
    ensures Edited(Apply(store, q.calls), q.hkey) == Done31(Edited(Apply(store, p.calls), p.hkey), e)
  {
    hide Run, Spelled, Ready31, Apply, WithDefault, Words;
    match e
    case Text31(names, gap, text) =>
      var path, rest := Spelled(CLASSES_ROOT, names), gap + [EQUALS, SPACE] + text;
      assert path + gap + [EQUALS, SPACE] + text == path + rest && rest[0] == gap[0];
      ValueBehind(gap, text);
      q := RunEntryText(env, p, names, rest, text, more, store);
    case Bare(names) =>
      assert Spelled(CLASSES_ROOT, names) + [] == Spelled(CLASSES_ROOT, names);
      q := RunEntryText(env, p, names, [], [], more, store);
    case Other(line) => q := RunOther(env, p, line, more);
  }

  // --------------------------------------------------------------------- whole files

  ghost predicate AllProper31(es: seq<Entry>) {
    forall i :: 0 <= i < |es| ==> Proper31(es[i])
  }

  lemma {:induction false} RunEntries(env: Env, p: Parser, es: seq<Entry>, more: seq<Text>, store: Store) returns (q: Parser)
    requires Ready31(p) && AllProper31(es) && p.lines == EntryLines(es) + more
    ensures Run(env, p, []) == Run(env, q, []) && Ready31(q) && q.lines == more
    ensures Edited(Apply(store, q.calls), q.hkey) == AllDone31(Edited(Apply(store, p.calls), p.hkey), es)
    decreases |es|
  {
    hide Run, Ready31, Apply, Done31, EntryLine, Proper31;
    if es == [] {
      q := p;
    } else {
      Associate([EntryLine(es[0])], EntryLines(es[1..]), more);
      var p1 := RunEntry(env, p, es[0], EntryLines(es[1..]) + more, store);
      q := RunEntries(env, p1, es[1..], more, store);
    }
  }

  lemma {:induction false} RunEnd31(env: Env, p: Parser)
    requires Ready31(p) && p.lines == [[]]
    ensures Run(env, p, []) == p.(lines := [[]])
  {
    hide Run;
    var p1 := p.(lines := []);
    assert p.lines[1..] == [] && CLASSES_ROOT != [];
    Take(env, p, [], p1, []);
    RunStep(env, p1, []);
  }

  lemma {:induction false} RunHeader31(env: Env, rest: seq<Text>, erange: bool) returns (p: Parser)
    ensures Run(env, Initial([HEADER_31] + rest, erange), []) == Run(env, p, [])
    ensures Ready31(p) && p.lines == rest && p.hkey == None && p.calls == []
  {
    hide Run;
    assert HEADER_31[0] == 0x52 && SkipBlanks(HEADER_31) == HEADER_31;
    RunFirstLine(env, HEADER_31, rest, erange);
    p := Initial(rest, erange).(version := Some(V31), state := Win31Line);
    AnyPosition31(env, p, HEADER_31, []);
  }

  lemma {:induction false} ImportEntryLines(env: Env, es: seq<Entry>, erange: bool, store: Store)
    requires AllProper31(es)
    ensures var r := Import(env, [HEADER_31] + EntryLines(es) + [[]], erange);
      r.Returned? && r.ok && Apply(store, r.calls) == AllDone31(Edited(store, None), es).store
  {
    hide Run, Apply, EntryLines, AllDone31;
    var rest := EntryLines(es) + [[]];
    Associate([HEADER_31], EntryLines(es), [[]]);
    var p := RunHeader31(env, rest, erange);
    var q := RunEntries(env, p, es, [[]], store);
    RunEnd31(env, q);
    CloseChangesNothing(store, q.(lines := [[]]));
    ApplyNone(store);
  }

  lemma {:induction false} EntryPlain(e: Entry)
    requires Proper31(e)
    ensures OneLine(EntryLine(e)) && NulFree(EntryLine(e))
  {
    hide Spelled, KeyNamed;
    match e
    case Text31(names, gap, text) =>
      KeySpelled31(names);
      BlanksPlain(gap);
      var path := Spelled(CLASSES_ROOT, names);
      PlainConcat(path, gap);
      PlainConcat(path + gap, [EQUALS, SPACE]);
      PlainConcat(path + gap + [EQUALS, SPACE], text);
    case Bare(names) => KeySpelled31(names);
    case Other(line) =>
  }

  lemma {:induction false} EntriesPlain(es: seq<Entry>)
    requires AllProper31(es)
    ensures OneLiners(EntryLines(es))
  {
    hide EntryLine, Proper31;
    if es != [] {
      EntryPlain(es[0]);
      EntriesPlain(es[1..]);
      OneLinersConcat([EntryLine(es[0])], EntryLines(es[1..]));
    }
  }

  /** A Windows 3.1 file, however it is read, over any registry: each line sets the default value of its key. */
  lemma {:induction false} ImportEntries(env: Env, es: seq<Entry>, erange: bool, chunks: seq<Text>, store: Store)
    requires AllProper31(es) && ValidChunks(chunks) && Concat(chunks) == Unlines([Wide("REGEDIT")] + EntryLines(es))
    ensures var r := Import(env, Lines(Reader(0, None, chunks)), erange);
      r.Returned? && r.ok && Apply(store, r.calls) == AllDone31(Edited(store, None), es).store
  {
    hide Unlines, SplitLines, EntryLines, AllDone31, Import;
    var ls := [HEADER_31] + EntryLines(es);
    WidePrintable("REGEDIT");
    EntriesPlain(es);
    OneLinersConcat([HEADER_31], EntryLines(es));
    UnlinesNulFree(ls);
    SplitUnlines(ls);
    ImportChunkIndependent(env, chunks, erange);
    ImportEntryLines(env, es, erange, store);
  }
}
