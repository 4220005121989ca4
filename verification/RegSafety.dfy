/**
 What every step of every import run keeps: ownership of value data, pairing of key
 name and handle, and the target of value writes.
 */
module RegSafety {
  import opened WideText
  import opened StringEscape
  import opened HexCodec
  import opened Registry
  import opened RegImport

  function UpTo(n: nat): seq<nat> {
    if n == 0 then [] else UpTo(n - 1) + [n - 1]
  }

  /** Blocks are freed exactly once and in allocation order; only the newest may still be live. */
  ghost predicate Accounted(m: Memory) {
    && m.badFrees == 0
    && (m.live == {} ==> m.freed == UpTo(m.next))
    && (m.live != {} ==> m.next > 0 && m.live == {m.next - 1} && m.freed == UpTo(m.next - 1))
  }

  /** States in which no value data may be around. */
  predicate NoData(s: State) {
    s != HexData && s != EolBackslash && s != HexMultiline && s != SettingValue
  }

  /** The value data in each state: absent, borrowed from the line still in the buffer, or an owned block. */
  ghost predicate DataInv(p: Parser) {
    && (p.data.Null? ==> p.dataSize == 0)
    && (p.data.Heap? ==> p.dataSize == |p.data.bytes| && HeapType(p.parseType))
    && (p.data.Line? ==> p.state == SettingValue && p.dataSize == 2 * (|p.data.text| + 1) && !HeapType(p.parseType))
    && !p.data.Dangling?
    && (NoData(p.state) ==> p.data == Null)
    && (p.state == EolBackslash || p.state == HexMultiline ==> p.data.Heap?)
    && (p.state == HexData || p.state == EolBackslash || p.state == HexMultiline ==> p.parseType == REG_BINARY)
    && (p.state == StringData ==> p.parseType == REG_SZ)
    && (p.state == DwordData ==> p.parseType == REG_DWORD)
    && p.memory.live == (if p.data.Heap? then {p.data.block} else {})
    && Accounted(p.memory)
  }

  /** A Windows 3.1 file never leaves its two states. */
  ghost predicate VersionInv(p: Parser) {
    && (p.version.None? <==> p.state == Header)
    && (p.version == Some(V31) ==> p.parseType == 0 && (p.state == Win31Line || p.state == SettingValue))
    && (p.state == Win31Line ==> p.version == Some(V31))
    && (p.version.Some? ==> p.version.value == V31 || p.version.value == V40 || p.version.value == V50)
    && p.state != UnknownData
    && (p.state == Header ==> p.parseType == 0)
  }

  /** Key name and handle come and go together, and the handle is the key last opened. */
  ghost predicate KeyInv(p: Parser) {
    && (p.hkey.Some? <==> p.keyName.Some?)
    && p.hkey == OpenKey(p.calls)
    && WritesToOpenKey(p.calls)
  }

  /** A call made while `open` is the open key: writes go to it, and keys are opened or deleted only when none is. */
  predicate Fits(open: Option<KeyPath>, c: Call) {
    match c
    case SetValue(h, _) => h == open
    case DeleteValue(h, _) => h == open
    case CloseKey(k) => open == Some(k)
    case CreateKey(_) => open == None
    case DeleteTree(_) => open == None
  }

  /** Each call fits the key open at that moment. */
  predicate WritesToOpenKey(calls: seq<Call>) {
    calls == [] ||
    var n := |calls| - 1;
    WritesToOpenKey(calls[..n]) && Fits(OpenKey(calls[..n]), calls[n])
  }

  lemma {:induction false} OpenAfter(calls: seq<Call>, c: Call)
    requires WritesToOpenKey(calls) && Fits(OpenKey(calls), c)
    ensures WritesToOpenKey(calls + [c])
    ensures OpenKey(calls + [c]) == (match c case CreateKey(k) => Some(k) case CloseKey(_) => None case _ => OpenKey(calls))
  {
    assert (calls + [c])[..|calls|] == calls;
  }

  lemma {:induction false} CloseKeeps(p: Parser)
    requires KeyInv(p)
    ensures KeyInv(CloseCurrent(p)) && CloseCurrent(p).hkey == None
  {
    if p.hkey.Some? { OpenAfter(p.calls, CloseKey(p.hkey.value)); }
  }

  lemma {:induction false} OpenKeeps(p: Parser, path: Text)
    requires KeyInv(p)
    ensures KeyInv(OpenNamed(p, path))
  {
    CloseKeeps(p);
    if KeyNamed(path).Some? { OpenAfter(CloseCurrent(p).calls, CreateKey(KeyNamed(path).value)); }
  }

  lemma {:induction false} AllocKeeps(m: Memory)
    requires Accounted(m) && m.live == {}
    ensures var (m', b) := Alloc(m); Accounted(m') && m'.live == {b}
  {
  }

  lemma {:induction false} FreeKeeps(m: Memory, b: nat, bytes: seq<Byte>)
    requires Accounted(m) && m.live == {b}
    ensures var m' := Free(m, Heap(b, bytes)); Accounted(m') && m'.live == {}
  {
    assert b in m.live;
    assert m.next - 1 in m.live;
  }

  /** Discarding value data is right whenever its kind and the parse type agree. */
  lemma {:induction false} FreeDataKeeps(p: Parser)
    requires Accounted(p.memory) && !p.data.Dangling?
    requires p.data.Heap? <==> p.memory.live != {}
    requires p.data.Heap? ==> HeapType(p.parseType) && p.memory.live == {p.data.block}
    requires p.data.Line? ==> !HeapType(p.parseType)
    ensures var q := FreeData(p); Accounted(q.memory) && q.memory.live == {} && q.data == Null && q.dataSize == 0
  {
    if p.data.Heap? { FreeKeeps(p.memory, p.data.block, p.data.bytes); }
  }

  ghost predicate Inv(p: Parser) {
    DataInv(p) && VersionInv(p) && KeyInv(p)
  }

  /** Outside Windows 3.1 files, going to another state without value data keeps the invariant. */
  lemma {:induction false} MoveKeeps(p: Parser, s: State)
    requires Inv(p) && p.data == Null && p.version != Some(V31) && p.version.Some?
    requires NoData(s) && s != Header && s != UnknownData && s != Win31Line && s != StringData && s != DwordData
    ensures Inv(p.(state := s))
  {
  }

  lemma {:induction false} CloseInv(p: Parser)
    requires Inv(p)
    ensures Inv(CloseCurrent(p)) && CloseCurrent(p).hkey == None
    ensures CloseCurrent(p).data == p.data && CloseCurrent(p).version == p.version && CloseCurrent(p).state == p.state
  {
    CloseKeeps(p);
  }

  lemma {:induction false} OpenInv(p: Parser, path: Text)
    requires Inv(p)
    ensures Inv(OpenNamed(p, path))
    ensures OpenNamed(p, path).data == p.data && OpenNamed(p, path).version == p.version && OpenNamed(p, path).state == p.state
  {
    OpenKeeps(p, path);
    var key := KeyNamed(path);
    var q := CloseCurrent(p);
    assert OpenNamed(p, path) == q
        || OpenNamed(p, path) == q.(hkey := key, keyName := Some(path), calls := q.calls + [CreateKey(key.value)]);
  }

  lemma {:induction false} ReadInv(p: Parser)
    requires Inv(p) && !p.data.Line?
    ensures Inv(GetLine(p).0) && GetLine(p).0.data == p.data && GetLine(p).0.version == p.version
    ensures GetLine(p).0.state == p.state && GetLine(p).0.parseType == p.parseType
  {
    hide WritesToOpenKey, Registry.OpenKey, UpTo;
  }

  lemma {:induction false} HeaderKeeps(p: Parser, pos: Text)
    requires Inv(p) && p.state == Header
    ensures var (q, next) := HeaderState(p, pos);
      KeyInv(q) && Accounted(q.memory) && q.memory.live == {} && q.data == Null && (next.Some? ==> Inv(q))
  {
    hide WritesToOpenKey, Registry.OpenKey, UpTo, ParseFileHeader, SkipBlanks;
    ReadInv(p);
  }

  lemma {:induction false} Win31LineKeeps(p: Parser, pos: Text)
    requires Inv(p) && p.state == Win31Line
    ensures Inv(Win31LineState(p, pos).0)
    ensures Win31LineState(p, pos).1.None? ==> Win31LineState(p, pos).0.data == Null
  {
    ReadInv(p);
    var (q, line) := GetLine(p);
    if line.Some? { OpenInv(q, line.value[..WordRun(line.value)]); }
  }

  lemma {:induction false} LineStartMoves(p: Parser, pos: Text)
    requires p.state == LineStart
    ensures var q := LineStartState(p, pos).0;
      && q == GetLine(p).0.(state := q.state)
      && (q.state == LineStart || q.state == KeyName || q.state == DefaultValueName || q.state == QuotedValueName)
  {
    hide SkipBlanks;
  }

  lemma {:induction false} LineStartKeeps(p: Parser, pos: Text)
    requires Inv(p) && p.state == LineStart
    ensures Inv(LineStartState(p, pos).0) && LineStartState(p, pos).0.data == Null
  {
    ReadInv(p);
    LineStartMoves(p, pos);
    MoveKeeps(GetLine(p).0, LineStartState(p, pos).0.state);
  }

  lemma {:induction false} KeyNameKeeps(p: Parser, pos: Text)
    requires Inv(p) && p.state == KeyName
    ensures Inv(KeyNameState(p, pos).0)
  {
    hide WritesToOpenKey, Registry.OpenKey, UpTo, LastBracket;
    var name := pos[..LastBracket(pos)];
    OpenInv(p, name);
    MoveKeeps(OpenNamed(p, name), LineStart);
    MoveKeeps(p, LineStart);
    MoveKeeps(p, DeleteKey);
  }

  lemma {:induction false} DeleteTreeKeeps(p: Parser, k: KeyPath)
    requires Inv(p) && p.hkey == None
    ensures Inv(p.(calls := p.calls + [DeleteTree(k)]))
  {
    OpenAfter(p.calls, DeleteTree(k));
  }

  lemma {:induction false} DeleteNamedKeeps(q: Parser, pos: Text)
    requires Inv(q) && q.state == DeleteKey && q.hkey == None
    ensures Inv(DeleteNamed(q, pos).0) && DeleteNamed(q, pos).0.data == Null
  {
    hide ParseKeyName, KeyNamed, UpTo, WritesToOpenKey, Registry.OpenKey;
    MoveKeeps(q, LineStart);
    if KeyNamed(pos).Some? {
      var k := KeyNamed(pos).value;
      DeleteTreeKeeps(q, k);
      MoveKeeps(q.(calls := q.calls + [DeleteTree(k)]), LineStart);
    }
  }

  lemma {:induction false} DeleteKeyKeeps(p: Parser, pos: Text)
    requires Inv(p) && p.state == DeleteKey
    ensures Inv(DeleteKeyState(p, pos).0) && DeleteKeyState(p, pos).0.data == Null
  {
    CloseInv(p);
    MoveKeeps(CloseCurrent(p), LineStart);
    DeleteNamedKeeps(CloseCurrent(p), pos);
  }

  lemma {:induction false} ValueNameKeeps(p: Parser, name: Option<Text>)
    requires Inv(p)
    ensures Inv(p.(valueName := name))
  {
  }

  lemma {:induction false} DefaultNameKeeps(p: Parser, pos: Text)
    requires Inv(p) && p.state == DefaultValueName
    ensures Inv(DefaultValueNameState(p, pos).0)
  {
    ValueNameKeeps(p, None);
    MoveKeeps(p.(valueName := None), DataStart);
  }

  lemma {:induction false} QuotedNameKeeps(p: Parser, pos: Text)
    requires Inv(p) && p.state == QuotedValueName
    ensures Inv(QuotedValueNameState(p, pos).0)
  {
    var name := if Unescape(pos).ok then Some(Unescape(pos).text) else None;
    ValueNameKeeps(p, name);
    MoveKeeps(p.(valueName := name), DataStart);
    MoveKeeps(p.(valueName := name), LineStart);
  }

  lemma {:induction false} DataStartKeeps(p: Parser, pos: Text)
    requires Inv(p) && p.state == DataStart
    ensures Inv(DataStartState(p, pos).0)
  {
    hide WritesToOpenKey, Registry.OpenKey, UpTo, SkipBlanks, TrimRight;
    MoveKeeps(p, LineStart);
    MoveKeeps(p, DeletingValue);
    MoveKeeps(p, DataType);
  }

  lemma {:induction false} DeleteValueKeeps(p: Parser, pos: Text)
    requires Inv(p) && p.state == DeletingValue
    ensures Inv(DeleteValueState(p, pos).0)
  {
    hide UpTo, SkipBlanks;
    var c := DeleteValue(p.hkey, NameOf(p.valueName));
    OpenAfter(p.calls, c);
    MoveKeeps(p, LineStart);
    MoveKeeps(p.(calls := p.calls + [c]), LineStart);
  }

  /** parse_data_type decides the parse type before any data is there. */
  lemma {:induction false} TypedMove(p: Parser, parse: nat, typ: nat, e: bool, s: State)
    requires Inv(p) && p.data == Null && p.version.Some? && p.version != Some(V31)
    requires s == LineStart || (s == StringData && parse == REG_SZ) || (s == DwordData && parse == REG_DWORD)
          || (s == HexData && parse == REG_BINARY)
    ensures Inv(p.(parseType := parse, dataType := typ, erange := e, state := s))
  {
  }

  lemma {:induction false} DataTypeCases(p: Parser, pos: Text)
    ensures var q := DataTypeState(p, pos).0;
      && q == p.(parseType := q.parseType, dataType := q.dataType, erange := q.erange, state := q.state)
      && (|| q.state == LineStart || (q.state == StringData && q.parseType == REG_SZ)
          || (q.state == DwordData && q.parseType == REG_DWORD) || (q.state == HexData && q.parseType == REG_BINARY))
  {
  }

  lemma {:induction false} DataTypeKeeps(p: Parser, pos: Text)
    requires Inv(p) && p.state == DataType
    ensures Inv(DataTypeState(p, pos).0)
  {
    DataTypeCases(p, pos);
    var q := DataTypeState(p, pos).0;
    TypedMove(p, q.parseType, q.dataType, q.erange, q.state);
  }

  lemma {:induction false} StringDataKeeps(env: Env, p: Parser, pos: Text)
    requires Inv(p) && p.state == StringData
    ensures Inv(StringDataState(env, p, pos).0)
  {
    hide WritesToOpenKey, Registry.OpenKey, UpTo, Unescape, SkipBlanks;
  }

  lemma {:induction false} DwordDataKeeps(p: Parser, pos: Text)
    requires Inv(p) && p.state == DwordData
    ensures Inv(DwordDataState(p, pos).0)
  {
    hide WritesToOpenKey, Registry.OpenKey, UpTo, ConvertDword;
    AllocKeeps(p.memory);
    var (m, block) := Alloc(p.memory);
    FreeDataKeeps(p.(memory := m, data := Heap(block, [])));
  }

  lemma {:induction false} ConvertKeeps(p: Parser, csv: Csv)
    requires Inv(p) && p.state == HexData
    ensures Inv(ConvertCsv(p, csv)) && ConvertCsv(p, csv).data.Heap? && ConvertCsv(p, csv).state == HexData
  {
    if p.data.Heap? { FreeKeeps(p.memory, p.data.block, p.data.bytes); }
    AllocKeeps(Free(p.memory, p.data));
  }

  /** A hex state with its block of data in hand. */
  ghost predicate InHex(p: Parser) {
    && Inv(p) && p.parseType == REG_BINARY && p.version.Some? && p.version != Some(V31)
    && p.data.Heap? && (p.state == HexData || p.state == EolBackslash || p.state == HexMultiline)
  }

  lemma {:induction false} HexDiscards(p: Parser)
    requires InHex(p)
    ensures Inv(FreeData(p).(state := LineStart))
  {
    FreeDataKeeps(p);
  }

  lemma {:induction false} HexWrites(env: Env, p: Parser)
    requires InHex(p)
    ensures Inv(PrepareHexString(env, p).(state := SettingValue))
  {
  }

  lemma {:induction false} HexStays(p: Parser, s: State)
    requires InHex(p) && (s == EolBackslash || s == HexMultiline || s == HexData)
    ensures Inv(p.(state := s))
  {
  }

  /** With a block of hex data in hand: discard it, pass it on, or keep reading. */
  lemma {:induction false} HexMoves(env: Env, p: Parser, s: State)
    requires InHex(p) && (s == EolBackslash || s == HexMultiline || s == HexData)
    ensures Inv(FreeData(p).(state := LineStart))
    ensures Inv(PrepareHexString(env, p).(state := SettingValue))
    ensures Inv(p.(state := s))
  {
    HexDiscards(p);
    HexWrites(env, p);
    HexStays(p, s);
  }

  lemma {:induction false} HexDataKeeps(env: Env, p: Parser, pos: Text)
    requires Inv(p) && p.state == HexData
    ensures Inv(HexDataState(env, p, pos).0)
  {
    var csv := DecodeCsv(pos);
    ConvertKeeps(p, csv);
    HexMoves(env, ConvertCsv(p, csv), EolBackslash);
    assert Inv(p.(state := SettingValue));
  }

  lemma {:induction false} EolBackslashKeeps(env: Env, p: Parser, pos: Text)
    requires Inv(p) && p.state == EolBackslash
    ensures Inv(EolBackslashState(p, pos).0)
  {
    HexMoves(env, p, HexMultiline);
  }

  lemma {:induction false} HexMultilineCases(env: Env, p: Parser, pos: Text)
    ensures var q := HexMultilineState(env, p, pos).0; var g := GetLine(p).0;
      || q == g || q == g.(state := HexData)
      || q == PrepareHexString(env, g).(state := SettingValue) || q == FreeData(g).(state := LineStart)
  {
  }

  lemma {:induction false} HexMultilineKeeps(env: Env, p: Parser, pos: Text)
    requires Inv(p) && p.state == HexMultiline
    ensures Inv(HexMultilineState(env, p, pos).0)
  {
    ReadInv(p);
    HexMoves(env, GetLine(p).0, HexData);
    HexMultilineCases(env, p, pos);
  }

  lemma {:induction false} SetValueKeeps(p: Parser, pos: Text)
    requires Inv(p) && p.state == SettingValue
    ensures Inv(SetValueState(p, pos).0)
  {
    var v := Value(NameOf(p.valueName), p.dataType, Payload(p));
    OpenAfter(p.calls, SetValue(p.hkey, v));
    FreeDataKeeps(p.(calls := p.calls + [SetValue(p.hkey, v)]));
  }

  lemma {:induction false} ReadingKeeps(env: Env, p: Parser, pos: Text)
    requires Inv(p) && ReadsLine(p.state)
    ensures Step(env, p, pos).1.Some? ==> Inv(Step(env, p, pos).0)
  {
    hide Inv, HeaderState, Win31LineState, LineStartState, HexMultilineState;
    match p.state
    case Header => HeaderKeeps(p, pos);
    case Win31Line => Win31LineKeeps(p, pos);
    case LineStart => LineStartKeeps(p, pos);
    case HexMultiline => HexMultilineKeeps(env, p, pos);
  }

  lemma {:induction false} ParsingKeeps(env: Env, p: Parser, pos: Text)
    requires Inv(p) && !ReadsLine(p.state)
    ensures Inv(Step(env, p, pos).0)
  {
    match p.state
    case KeyName => KeyNameKeeps(p, pos);
    case DeleteKey => DeleteKeyKeeps(p, pos);
    case DefaultValueName => DefaultNameKeeps(p, pos);
    case QuotedValueName => QuotedNameKeeps(p, pos);
    case DataStart => DataStartKeeps(p, pos);
    case DeletingValue => DeleteValueKeeps(p, pos);
    case DataType => DataTypeKeeps(p, pos);
    case StringData => StringDataKeeps(env, p, pos);
    case DwordData => DwordDataKeeps(p, pos);
    case HexData => HexDataKeeps(env, p, pos);
    case EolBackslash => EolBackslashKeeps(env, p, pos);
    case SettingValue => SetValueKeeps(p, pos);
  }

  /** NULL comes only from the end of the file, a bad header, the exit on a bad key to delete, or a pointer never set. */
  lemma {:induction false} StepEnds(env: Env, p: Parser, pos: Text)
    requires Inv(p) && Step(env, p, pos).1.None?
    ensures var q := Step(env, p, pos).0; KeyInv(q) && Accounted(q.memory) && q.memory.live == {} && q.data == Null
  {
    hide KeyInv, Accounted;
    if p.state == Header { HeaderKeeps(p, pos); }
    else if p.state == Win31Line { Win31LineKeeps(p, pos); }
    else if p.state == LineStart { LineStartKeeps(p, pos); }
    else if p.state == DeleteKey { DeleteKeyKeeps(p, pos); }
    else if p.state == StringData { StringDataKeeps(env, p, pos); }
  }

  /** Every step of the importer keeps the invariant; when it returns NULL no value data is left. */
  lemma {:induction false} StepKeeps(env: Env, p: Parser, pos: Text)
    requires Inv(p)
    ensures var (q, next) := Step(env, p, pos);
      && (next.Some? ==> Inv(q))
      && (next.None? ==> KeyInv(q) && Accounted(q.memory) && q.memory.live == {} && q.data == Null)
  {
    if Step(env, p, pos).1.None? {
      StepEnds(env, p, pos);
    } else {
      if ReadsLine(p.state) { ReadingKeeps(env, p, pos); } else { ParsingKeeps(env, p, pos); }
    }
  }

  lemma {:induction false} InitialInv(lines: seq<Text>, erange: bool)
    ensures Inv(Initial(lines, erange))
  {
  }

  /** A parser in order. */
  type SafeParser = p: Parser | Inv(p) ghost witness (InitialInv([], false); Initial([], false))

  /** One more step, if the run goes on; by its type, the parser it leads to is in order again. */
  function Advance(env: Env, p: SafeParser, pos: Text): Option<(SafeParser, Text)> {
    StepKeeps(env, p, pos);
    var (q, next) := Step(env, p, pos);
    if next.None? then None else Some((q, next.value))
  }

  /** The states a run passes through: the parser after k steps, if it gets that far. */
  function After(env: Env, p: SafeParser, pos: Text, k: nat): Option<(SafeParser, Text)> {
    if k == 0 then Some((p, pos)) else
    var o := After(env, p, pos, k - 1);
    if o.None? then None else Advance(env, o.value.0, o.value.1)
  }

  lemma {:induction false} RunKeeps(env: Env, p: Parser, pos: Text)
    requires Inv(p)
    ensures var q := Run(env, p, pos); KeyInv(q) && Accounted(q.memory) && q.memory.live == {} && q.data == Null
    decreases Units(p.lines), RestartRank(p.state), |p.lines|, StateRank(p.state)
  {
    StepKeeps(env, p, pos);
    StepLowers(env, p, pos);
    var (q, next) := Step(env, p, pos);
    if next.Some? { RunKeeps(env, q, next.value); }
  }

  /**
   Safety over whole runs, for every file and every environment. At every state the
   run passes through, value data is absent in the line, key and name states, borrowed
   only from the line still in the buffer and otherwise owned; key name and handle are
   set together. When it ends, every block was freed exactly once in allocation order,
   nothing else was freed, and every call fitted the key open at that moment.
   */
  lemma {:induction false} ImportSafe(env: Env, lines: seq<Text>, erange: bool, k: nat)
    ensures var start := Initial(lines, erange);
      && Inv(start) && (After(env, start, [], k).Some? ==> Inv(After(env, start, [], k).value.0))
      && var last := Run(env, start, []);
         && last.memory.live == {} && last.memory.freed == UpTo(last.memory.next) && last.memory.badFrees == 0
         && last.data == Null && WritesToOpenKey(last.calls)
         && (last.hkey.Some? <==> last.keyName.Some?)
  {
    var start := Initial(lines, erange);
    InitialInv(lines, erange);
    RunKeeps(env, start, []);
  }

  /** A returning import of a valid file leaves no key open. */
  lemma {:induction false} ImportClosesKeys(env: Env, lines: seq<Text>, erange: bool)
    ensures var r := Import(env, lines, erange);
      && WritesToOpenKey(r.calls)
      && (r.Returned? && r.ok && Run(env, Initial(lines, erange), []).version != Some(Fuzzy) ==> OpenKey(r.calls) == None)
  {
    ImportSafe(env, lines, erange, 0);
    var p := Run(env, Initial(lines, erange), []);
    RunKeeps(env, Initial(lines, erange), []);
    CloseKeeps(p);
  }
}
