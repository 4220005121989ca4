/**
 The registry-file importer as a machine: one function per parser state, each
 taking the parser and the text at the current position and returning the parser
 and the next position, None for NULL.
 */
module RegImport {
  import opened WideText
  import opened StringEscape
  import opened HexCodec
  import opened Registry

  datatype State =
    | Header | Win31Line | LineStart | KeyName | DeleteKey | DefaultValueName | QuotedValueName
    | DataStart | DeletingValue | DataType | StringData | DwordData | HexData | EolBackslash
    | HexMultiline | UnknownData | SettingValue

  datatype Version = V31 | V40 | V50 | Fuzzy | Invalid

  /** parser->data: NULL, a pointer into the current line, a heap block, or a pointer into a line already gone. */
  datatype Data = Null | Line(text: Text) | Heap(block: nat, bytes: seq<Byte>) | Dangling

  /** Heap blocks for value data, numbered in allocation order; badFrees counts frees of anything else. */
  datatype Memory = Memory(next: nat, live: set<nat>, freed: seq<nat>, badFrees: nat)

  datatype Parser = Parser(
    state: State,
    version: Option<Version>,
    hkey: Option<KeyPath>,
    keyName: Option<Text>,
    valueName: Option<Text>,
    parseType: nat,
    dataType: nat,
    data: Data,
    dataSize: nat,
    backslash: bool,
    erange: bool,
    exited: bool,
    memory: Memory,
    lines: seq<Text>,
    calls: seq<Call>)

  /**
   What the importer finds in memory it does not own or has not set: the word before a block, the byte
   after its data, and whether an uninitialised pointer happens to be NULL.
   */
  datatype Env = Env(stray: WChar, garbage: Byte, strayNull: bool)

  type Outcome = (Parser, Option<Text>)

  // ------------------------------------------------------------- reading lines

  /** get_line: None at the end of the file, after which the reader starts over on an exhausted file. */
  function GetLine(p: Parser): (o: (Parser, Option<Text>)) {
    var data := if p.data.Line? then Dangling else p.data;
    if p.lines == [] then (p.(lines := [[]], data := data), None)
    else (p.(lines := p.lines[1..], data := data), Some(p.lines[0]))
  }

  // ------------------------------------------------------------------ key names

  const CLASS_NAMES: seq<Text> := [
    Wide("HKEY_LOCAL_MACHINE"), Wide("HKEY_USERS"), Wide("HKEY_CLASSES_ROOT"),
    Wide("HKEY_CURRENT_CONFIG"), Wide("HKEY_CURRENT_USER"), Wide("HKEY_DYN_DATA")]

  predicate ClassMatches(name: Text, i: nat)
    requires i < |CLASS_NAMES|
  {
    var c := CLASS_NAMES[i];
    |c| <= |name| && FoldText(name[..|c|]) == c && (|name| == |c| || name[|c|] == BACKSLASH)
  }

  /** The first class at index i or later whose name the key name starts with. */
  function FindClass(name: Text, i: nat := 0): (r: Option<nat>)
    ensures r.Some? ==> r.value < |CLASS_NAMES| && ClassMatches(name, r.value)
    decreases |CLASS_NAMES| - i
  {
    if i >= |CLASS_NAMES| then None
    else if ClassMatches(name, i) then Some(i)
    else FindClass(name, i + 1)
  }

  /** Names between backslashes. */
  function SplitPath(path: Text): (names: seq<Text>)
    ensures |names| >= 1
    decreases |path|
  {
    var i := FirstBackslash(path);
    if i == |path| then [path] else [path[..i]] + SplitPath(path[i + 1..])
  }

  function FirstBackslash(path: Text): (i: nat)
    ensures i <= |path| && (i < |path| ==> path[i] == BACKSLASH)
    ensures forall k :: 0 <= k < i ==> path[k] != BACKSLASH
  {
    if path == [] || path[0] == BACKSLASH then 0 else
    var j := FirstBackslash(path[1..]);
    assert forall k :: 1 <= k < j + 1 ==> path[k] == path[1..][k - 1];
    j + 1
  }

  /** parse_key_name: the class and the path after the first backslash, None for NULL. */
  function ParseKeyName(name: Text): (Option<nat>, Option<Text>) {
    var i := FirstBackslash(name);
    (FindClass(name), if i < |name| then Some(name[i + 1..]) else None)
  }

  /** The key a full name denotes; a name with an empty component denotes none. */
  function KeyNamed(name: Text): Option<KeyPath> {
    var (hive, path) := ParseKeyName(name);
    if hive.None? then None
    else if path.None? || path.value == [] then Some(KeyPath(hive.value, []))
    else if [] in SplitPath(path.value) then None
    else Some(KeyPath(hive.value, SplitPath(path.value)))
  }

  /** close_key: name and handle go together. */
  function CloseCurrent(p: Parser): Parser {
    if p.hkey.Some? then
      p.(keyName := None, hkey := None, calls := p.calls + [CloseKey(p.hkey.value)])
    else p
  }

  /** open_key */
  function OpenNamed(p: Parser, path: Text): Parser {
    var q := CloseCurrent(p);
    var key := KeyNamed(path);
    if key.None? then q else
    q.(hkey := key, keyName := Some(path), calls := q.calls + [CreateKey(key.value)])
  }

  // ------------------------------------------------------------------- memory

  function Alloc(m: Memory): (Memory, nat) {
    (m.(next := m.next + 1, live := m.live + {m.next}), m.next)
  }

  function Free(m: Memory, d: Data): Memory {
    match d
    case Null => m
    case Heap(b, _) =>
      if b in m.live then m.(live := m.live - {b}, freed := m.freed + [b]) else m.(badFrees := m.badFrees + 1)
    case Line(_) => m.(badFrees := m.badFrees + 1)
    case Dangling => m.(badFrees := m.badFrees + 1)
  }

  predicate HeapType(t: nat) {
    t == REG_DWORD || t == REG_BINARY
  }

  /** free_parser_data */
  function FreeData(p: Parser): Parser {
    p.(memory := if HeapType(p.parseType) then Free(p.memory, p.data) else p.memory, data := Null, dataSize := 0)
  }

  function HeapBytes(d: Data): seq<Byte> {
    if d.Heap? then d.bytes else []
  }

  predicate StringType(t: nat) {
    t == REG_EXPAND_SZ || t == REG_MULTI_SZ || t == REG_SZ
  }

  /** The last complete word is there and is NUL. */
  predicate EndsInNul(bytes: seq<Byte>, words: nat)
    requires 2 * words <= |bytes|
  {
    words > 0 && bytes[2 * words - 2] == 0 && bytes[2 * words - 1] == 0
  }

  /** The last complete word is not NUL; with no complete word, the word before the block decides. */
  predicate Unterminated(env: Env, bytes: seq<Byte>) {
    if |bytes| < 2 then env.stray != NUL else !EndsInNul(bytes, |bytes| / 2)
  }

  /** A NUL word stored behind the complete words; over an odd byte it leaves room for one byte of what lies behind. */
  function WithNulWord(env: Env, bytes: seq<Byte>): seq<Byte> {
    bytes[..2 * (|bytes| / 2)] + [0, 0] + (if |bytes| % 2 == 1 then [env.garbage] else [])
  }

  /** Terminates string data given in hex, as prepare_hex_string_data does for Unicode files. */
  function Terminated(env: Env, bytes: seq<Byte>): seq<Byte> {
    if Unterminated(env, bytes) then WithNulWord(env, bytes) else bytes
  }

  lemma {:induction false} NulWordStored(env: Env, bytes: seq<Byte>, words: nat)
    requires words == |bytes| / 2
    ensures var r := WithNulWord(env, bytes);
      bytes[..2 * words] <= r && |r| == |bytes| + 2 && EndsInNul(r, words + 1)
  {
    var r := WithNulWord(env, bytes);
    var head := bytes[..2 * words];
    assert |head| == 2 * words && r[..2 * words] == head;
    assert r[2 * words] == 0 && r[2 * words + 1] == 0;
  }

  /**
   The complete words stay, and two bytes are gained exactly when the NUL was missing. Afterwards
   the last complete word is NUL; data without one stays so when a NUL lies before the block.
   */
  lemma {:induction false} TerminatedWords(env: Env, bytes: seq<Byte>, words: nat)
    requires words == |bytes| / 2
    ensures var r, gained := Terminated(env, bytes), if Unterminated(env, bytes) then 1 else 0;
      && bytes[..2 * words] <= r && |r| == |bytes| + 2 * gained
      && (EndsInNul(r, words + gained) <==> words > 0 || env.stray != NUL)
  {
    if Unterminated(env, bytes) { NulWordStored(env, bytes, words); }
  }

  function PrepareHexString(env: Env, p: Parser): Parser {
    if StringType(p.dataType) && p.data.Heap? then
      var b := Terminated(env, p.data.bytes);
      p.(data := p.data.(bytes := b), dataSize := |b|)
    else p
  }

  // ------------------------------------------------------------------- states

  const HEADER_31 := Wide("REGEDIT")
  const HEADER_40 := Wide("REGEDIT4")
  const HEADER_50 := Wide("Windows Registry Editor Version 5.00")

  function ParseFileHeader(line: Text): Version {
    var s := SkipBlanks(line);
    if s == HEADER_31 then V31
    else if s == HEADER_40 then V40
    else if s == HEADER_50 then V50
    else if HEADER_31 <= s then Fuzzy
    else Invalid
  }

  function HeaderFound(q: Parser, line: Text): Outcome {
    var v := ParseFileHeader(line);
    match v
    case V31 => (q.(version := Some(v), state := Win31Line), Some(line))
    case V40 => (q.(version := Some(v), state := LineStart), Some(line))
    case V50 => (q.(version := Some(v), state := LineStart), Some(line))
    case _ => (q.(version := Some(v)), None)
  }

  function HeaderState(p: Parser, pos: Text): Outcome {
    var (q, line) := GetLine(p);
    if line.None? then (q, None) else HeaderFound(q, line.value)
  }

  const CLASSES_ROOT := Wide("HKEY_CLASSES_ROOT")

  function WordRun(s: Text): (n: nat)
    ensures n <= |s| && (n < |s| ==> IsSpace(s[n]))
  {
    if s == [] || IsSpace(s[0]) then 0 else 1 + WordRun(s[1..])
  }

  /**
   The value after the key name of a Windows 3.1 line. When no blank follows the name, the
   value starts where the name is cut off and is lost.
   */
  function Win31Value(rest: Text): Text {
    if rest == [] || !IsBlank(rest[0]) then [] else
    var a := SkipBlanks(rest);
    var b := if a != [] && a[0] == EQUALS then a[1..] else a;
    if b != [] && b[0] == SPACE then b[1..] else b
  }

  lemma {:induction false} ClassesRootPlain()
    ensures NulFree(CLASSES_ROOT)
  {
    WidePrintable("HKEY_CLASSES_ROOT");
  }

  /** A Windows 3.1 line that names a key: the key, then its default value. */
  function Win31Entry(q: Parser, line: Text): Outcome {
    var n := WordRun(line);
    var value := Win31Value(line[n..]);
    var r := OpenNamed(q, line[..n]);
    if r.hkey.None? then (r, Some(line[..n])) else
    (r.(valueName := None, dataType := REG_SZ, data := Line(value), dataSize := 2 * (|value| + 1),
        state := SettingValue), Some(value))
  }

  function Win31LineState(p: Parser, pos: Text): Outcome {
    var (q, line) := GetLine(p);
    if line.None? then (q, None)
    else if !(CLASSES_ROOT <= line.value) then (q, line)
    else Win31Entry(q, line.value)
  }

  /** What the first character of a line other than a blank leads to. */
  function ClassifyLine(q: Parser, s: Text): Outcome {
    if s == [] then (q, Some(s))
    else if s[0] == LBRACKET then (q.(state := KeyName), Some(s[1..]))
    else if s[0] == AT then (q.(state := DefaultValueName), Some(s))
    else if s[0] == QUOTE then (q.(state := QuotedValueName), Some(s[1..]))
    else (q, Some(s))
  }

  function LineStartState(p: Parser, pos: Text): Outcome {
    var (q, line) := GetLine(p);
    if line.None? then (q, None) else ClassifyLine(q, SkipBlanks(line.value))
  }

  /** wcsrchr(s, ']'), or the length of the text when there is none. */
  function LastBracket(s: Text): (i: nat)
    ensures i <= |s| && (i < |s| ==> s[i] == RBRACKET)
    ensures forall k :: i < k < |s| ==> s[k] != RBRACKET
    ensures i == |s| ==> RBRACKET !in s
  {
    if s == [] then 0
    else if s[|s| - 1] == RBRACKET then |s| - 1
    else
      var j := LastBracket(s[..|s| - 1]);
      assert s == s[..|s| - 1] + [s[|s| - 1]];
      if j < |s| - 1 then j else |s|
  }

  /** A key name without its bracket: a key to delete, or one to open. */
  function KeyFound(p: Parser, name: Text): Outcome {
    if name != [] && name[0] == MINUS then (p.(state := DeleteKey), Some(name[1..]))
    else (OpenNamed(p, name).(state := LineStart), Some(name))
  }

  function KeyNameState(p: Parser, pos: Text): Outcome {
    var end := LastBracket(pos);
    if (pos != [] && IsBlank(pos[0])) || end == |pos| then (p.(state := LineStart), Some(pos))
    else KeyFound(p, pos[..end])
  }

  const UPPER_H: WChar := 0x48
  const LOWER_H: WChar := 0x68

  /** A key to delete must be a known class with something below it; otherwise regedit exits. */
  function DeleteNamed(q: Parser, pos: Text): Outcome {
    var (hive, path) := ParseKeyName(pos);
    if hive.None? || path.None? || path.value == [] then (q.(exited := true), None)
    else if KeyNamed(pos).None? then (q.(state := LineStart), Some(pos))
    else (q.(calls := q.calls + [DeleteTree(KeyNamed(pos).value)], state := LineStart), Some(pos))
  }

  function DeleteKeyState(p: Parser, pos: Text): Outcome {
    var q := CloseCurrent(p);
    if pos == [] || (pos[0] != UPPER_H && pos[0] != LOWER_H) then (q.(state := LineStart), Some(pos))
    else DeleteNamed(q, pos)
  }

  function DefaultValueNameState(p: Parser, pos: Text): Outcome {
    (p.(valueName := None, state := DataStart), Some(if pos == [] then [] else pos[1..]))
  }

  function QuotedValueNameState(p: Parser, pos: Text): Outcome {
    var u := Unescape(pos);
    if u.ok then (p.(valueName := Some(u.text), state := DataStart), Some(u.rest))
    else (p.(valueName := None, state := LineStart), Some(u.text))
  }

  function DataStartState(p: Parser, pos: Text): Outcome {
    var s := SkipBlanks(pos);
    if s == [] || s[0] != EQUALS then (p.(state := LineStart), Some(s)) else
    var t := TrimRight(SkipBlanks(s[1..]));
    if t != [] && t[0] == MINUS then (p.(state := DeletingValue), Some(t))
    else (p.(state := DataType), Some(t))
  }

  function NameOf(valueName: Option<Text>): Text {
    if valueName.Some? then valueName.value else []
  }

  predicate EndsHere(s: Text) {
    s == [] || s[0] == SEMICOLON
  }

  function DeleteValueState(p: Parser, pos: Text): Outcome {
    var s := SkipBlanks(if pos == [] then [] else pos[1..]);
    if EndsHere(s) then
      (p.(calls := p.calls + [DeleteValue(p.hkey, NameOf(p.valueName))], state := LineStart), Some(s))
    else (p.(state := LineStart), Some(s))
  }

  const HEX_TAG := Wide("hex:")
  const DWORD_TAG := Wide("dword:")
  const HEX_TYPE_TAG := Wide("hex(")
  const RPAREN: WChar := 0x29
  const COLON: WChar := 0x3A

  /** The number in "hex(<number>):", with the text after it; None when malformed or out of range. */
  function ParseHexType(s: Text, erange: bool): (Option<(nat, Text)>, bool) {
    if s == [] || (|s| > 1 && (s[1] == LETTER_X || s[1] == UPPER_X)) then (None, erange) else
    var num := Wcstoul(s);
    var e := erange || num.overflow;
    var end := s[num.end..];
    if |end| < 2 || end[0] != RPAREN || end[1] != COLON || (num.value == UINT32 - 1 && e) then (None, e)
    else (Some((num.value, end[2..])), e)
  }

  /** The text behind the type is a suffix of the tag's text. */
  lemma {:induction false} ParseHexTypeRest(s: Text, erange: bool)
    ensures var (t, _) := ParseHexType(s, erange);
      t.Some? ==> |t.value.1| <= |s| && s[|s| - |t.value.1|..] == t.value.1
  {
    hide Wcstoul;
    var end := s[Wcstoul(s).end..];
    assert |end| >= 2 ==> end[2..] == s[Wcstoul(s).end + 2..];
  }

  lemma {:induction false} TagsPlain()
    ensures NulFree(HEX_TAG) && NulFree(DWORD_TAG) && NulFree(HEX_TYPE_TAG) && NulFree([QUOTE])
    ensures |HEX_TAG| == 4 && |DWORD_TAG| == 6 && |HEX_TYPE_TAG| == 4
  {
    WidePrintable("hex:");
    WidePrintable("dword:");
    WidePrintable("hex(");
  }

  function HexTypeState(q: Parser, pos: Text): Outcome {
    var (t, e) := ParseHexType(pos, q.erange);
    if t.None? then (q.(erange := e, state := LineStart), Some(pos))
    else (q.(erange := e, dataType := t.value.0, state := HexData), Some(t.value.1))
  }

  function DataTypeState(p: Parser, pos: Text): Outcome {
    if [QUOTE] <= pos then
      (p.(parseType := REG_SZ, dataType := REG_SZ, state := StringData), Some(pos[1..]))
    else if HEX_TAG <= pos then
      (p.(parseType := REG_BINARY, dataType := REG_BINARY, state := HexData), Some(pos[4..]))
    else if DWORD_TAG <= pos then
      (p.(parseType := REG_DWORD, dataType := REG_DWORD, state := DwordData), Some(pos[6..]))
    else if HEX_TYPE_TAG <= pos then
      HexTypeState(p.(parseType := REG_BINARY, dataType := REG_BINARY), pos[4..])
    else (p.(state := LineStart), Some(pos))
  }

  /** When the string fails before its rest is known, the state returns a pointer it never set. */
  function StringDataState(env: Env, p: Parser, pos: Text): Outcome {
    var u := Unescape(pos);
    var rest := SkipBlanks(u.rest);
    if u.ok && EndsHere(rest) then
      (p.(data := Line(u.text), dataSize := 2 * (|u.text| + 1), state := SettingValue), Some(rest))
    else
      (FreeData(p.(data := Line(u.text))).(state := LineStart), if !u.restKnown && env.strayNull then None else Some(rest))
  }

  /** convert_hex_to_dword: at most eight digits, then blanks up to the end or a comment. */
  function ConvertDword(text: Text): (r: Option<nat>)
    ensures r.Some? ==> r.value < UINT32
  {
    ConvertDigits(SkipBlanks(text))
  }

  function ConvertDigits(s: Text): (r: Option<nat>)
    ensures r.Some? ==> r.value < UINT32
  {
    if s == [] then None else
    var n := HexRun(s);
    if n > 8 || !EndsHere(SkipBlanks(s[n..])) then None else
    HexNumberBound(s[..n]);
    Some(HexNumber(s[..n]))
  }

  lemma {:induction false} HexNumberBelow(s: Text)
    requires AllHex(s)
    ensures HexNumber(s) < Pow16(|s|)
  {
    if s != [] { HexNumberBelow(s[..|s| - 1]); }
  }

  lemma {:induction false} Pow16Grows(a: nat, b: nat)
    requires a <= b
    ensures 1 <= Pow16(a) <= Pow16(b)
  {
    if b == 0 {
    } else if a == b {
      Pow16Grows(a - 1, b - 1);
    } else {
      Pow16Grows(a, b - 1);
    }
  }

  lemma {:induction false} Pow16Eight()
    ensures Pow16(8) == UINT32
  {
    assert Pow16(8) == 16 * Pow16(7) && Pow16(7) == 16 * Pow16(6) && Pow16(6) == 16 * Pow16(5);
    assert Pow16(5) == 16 * Pow16(4) && Pow16(4) == 16 * Pow16(3) && Pow16(3) == 16 * Pow16(2);
    assert Pow16(2) == 16 * Pow16(1) && Pow16(1) == 16 * Pow16(0);
  }

  lemma {:induction false} HexNumberBound(s: Text)
    requires AllHex(s) && |s| <= 8
    ensures HexNumber(s) < UINT32
  {
    HexNumberBelow(s);
    Pow16Grows(|s|, 8);
    Pow16Eight();
  }

  function DwordDataState(p: Parser, pos: Text): Outcome {
    var (m, block) := Alloc(p.memory);
    var n := ConvertDword(pos);
    if n.Some? then
      (p.(memory := m, data := Heap(block, Little(n.value)), dataSize := 4, state := SettingValue), Some(pos))
    else
      (FreeData(p.(memory := m, data := Heap(block, []))).(state := LineStart), Some(pos))
  }

  /** convert_hex_csv_to_hex: grows the block first, then appends what it decodes. */
  function ConvertCsv(p: Parser, csv: Csv): Parser {
    var (m, block) := Alloc(Free(p.memory, p.data));
    var bytes := HeapBytes(p.data) + csv.bytes;
    p.(memory := m, data := Heap(block, bytes), dataSize := |bytes|, backslash := csv.backslash,
       erange := p.erange || csv.overflow)
  }

  /** What convert_hex_csv_to_hex allocates for a list, on top of the bytes already there. */
  function BlockSize(size: nat, list: Text): nat {
    (|list| + 1) / 2 + size
  }

  /** The bytes of a list fit into the block allocated for it. */
  lemma {:induction false} BlockHolds(size: nat, list: Text)
    ensures size + |DecodeCsv(list).bytes| <= BlockSize(size, list)
  {
    hide DecodeCsv;
    CsvBytesBound(list);
  }

  /** Whether the NUL word of prepare_hex_string_data lies inside the block, when n bytes are in it. */
  predicate TerminatorFits(n: nat, block: nat) {
    2 * (n / 2) + 2 <= block
  }

  /** For a well-formed list of any form: enough characters per field, one byte less on an odd size. */
  lemma {:induction false} ListTerminator(size: nat, list: Text)
    requires DecodeCsv(list).ok
    ensures |DecodeCsv(list).bytes| == Fields(list)
    ensures TerminatorFits(size + |DecodeCsv(list).bytes|, BlockSize(size, list)) <==>
      |list| >= 2 * Fields(list) + (if (size + Fields(list)) % 2 == 0 then 3 else 1)
  {
    hide DecodeCsv, Fields;
    FieldsDecoded(list);
  }

  /**
   For a last row of two-digit bytes behind `size` bytes from the rows before it: on the line alone, or cut
   by a comma and a backslash where the file then ends.
   */
  lemma {:induction false} RowTerminator(size: nat, row: seq<Byte>, cut: bool)
    requires row != []
    ensures var list := CsvText(row) + if cut then [COMMA, BACKSLASH] else [];
      && DecodeCsv(list).bytes == row
      && (TerminatorFits(size + |row|, BlockSize(size, list)) <==>
            if cut then |row| >= 2 || (size + |row|) % 2 == 1
            else |row| >= 4 || (|row| >= 2 && (size + |row|) % 2 == 1))
  {
    hide DecodeCsv, CsvText;
    DecodeEnd(row, cut);
    CsvTextLength(row);
  }

  /** hex(2):41,42 is string data without a terminator in a block of three bytes: bytes 2 and 3 are written. */
  lemma {:induction false} TerminatorExample(env: Env)
    ensures var row := [0x41, 0x42];
      && Unterminated(env, row) && BlockSize(0, CsvText(row)) == 3 && !TerminatorFits(2, 3)
  {
    hide CsvText;
    CsvTextLength([0x41, 0x42]);
  }

  /** With the decoded bytes appended: discard on error, go on after a backslash, or write. */
  function AfterCsv(env: Env, q: Parser, csv: Csv, pos: Text): Outcome {
    if !csv.ok then (FreeData(q).(state := LineStart), Some(pos))
    else if csv.backslash then (q.(state := EolBackslash), Some(csv.rest))
    else (PrepareHexString(env, q).(state := SettingValue), Some(pos))
  }

  function HexDataState(env: Env, p: Parser, pos: Text): Outcome {
    if pos == [] then (p.(state := SettingValue), Some(pos)) else
    var csv := DecodeCsv(pos);
    AfterCsv(env, ConvertCsv(p, csv), csv, pos)
  }

  function EolBackslashState(p: Parser, pos: Text): Outcome {
    var s := SkipBlanks(pos);
    if EndsHere(s) then (p.(state := HexMultiline), Some(pos))
    else (FreeData(p).(state := LineStart), Some(s))
  }

  /** At the end of the file the line buffer is gone, so the position returned there has no text. */
  function HexMultilineState(env: Env, p: Parser, pos: Text): Outcome {
    var (q, line) := GetLine(p);
    if line.None? then (PrepareHexString(env, q).(state := SettingValue), Some([])) else
    ContinueLine(q, SkipBlanks(line.value))
  }

  function ContinueLine(q: Parser, s: Text): Outcome {
    if EndsHere(s) then (q, Some(s))
    else if IsHex(s[0]) then (q.(state := HexData), Some(s))
    else (FreeData(q).(state := LineStart), Some(s))
  }

  function UnknownDataState(p: Parser, pos: Text): Outcome {
    (p.(state := LineStart), Some(pos))
  }

  /** The bytes handed to RegSetValueExW. */
  function Payload(p: Parser): seq<Byte> {
    FirstBytes(p.data, p.dataSize)
  }

  function FirstBytes(d: Data, size: nat): seq<Byte> {
    var bytes := match d
      case Line(t) => ToBytes(t + [NUL])
      case Heap(_, b) => b
      case _ => [];
    if size <= |bytes| then bytes[..size] else bytes
  }

  function SetValueState(p: Parser, pos: Text): Outcome {
    var v := Value(NameOf(p.valueName), p.dataType, Payload(p));
    var q := FreeData(p.(calls := p.calls + [SetValue(p.hkey, v)]));
    (q.(state := if p.version == Some(V31) then Win31Line else LineStart), Some(pos))
  }

  function Step(env: Env, p: Parser, pos: Text): Outcome {
    match p.state
    case Header => HeaderState(p, pos)
    case Win31Line => Win31LineState(p, pos)
    case LineStart => LineStartState(p, pos)
    case KeyName => KeyNameState(p, pos)
    case DeleteKey => DeleteKeyState(p, pos)
    case DefaultValueName => DefaultValueNameState(p, pos)
    case QuotedValueName => QuotedValueNameState(p, pos)
    case DataStart => DataStartState(p, pos)
    case DeletingValue => DeleteValueState(p, pos)
    case DataType => DataTypeState(p, pos)
    case StringData => StringDataState(env, p, pos)
    case DwordData => DwordDataState(p, pos)
    case HexData => HexDataState(env, p, pos)
    case EolBackslash => EolBackslashState(p, pos)
    case HexMultiline => HexMultilineState(env, p, pos)
    case UnknownData => UnknownDataState(p, pos)
    case SettingValue => SetValueState(p, pos)
  }

  // ------------------------------------------------------------ termination

  function Units(lines: seq<Text>): nat {
    if lines == [] then 0 else |lines[0]| + Units(lines[1..])
  }

  /** States from which the end-of-file branch of HexMultiline can still be reached on the current line. */
  function RestartRank(s: State): nat {
    match s
    case DefaultValueName => 1 case QuotedValueName => 1 case DataStart => 1 case DataType => 1
    case HexData => 1 case EolBackslash => 1 case HexMultiline => 1
    case _ => 0
  }

  function StateRank(s: State): nat {
    match s
    case DefaultValueName => 5 case QuotedValueName => 5 case DataStart => 4 case DataType => 3
    case HexData => 2 case StringData => 2 case DwordData => 2 case KeyName => 2
    case EolBackslash => 1 case SettingValue => 1 case DeleteKey => 1 case UnknownData => 1 case DeletingValue => 1
    case _ => 0
  }

  /** Unread input, the end-of-file restart, lines left, state rank: every step lowers one and keeps those before it. */
  ghost predicate Lower(a: Parser, b: Parser) {
    || Units(a.lines) < Units(b.lines)
    || (Units(a.lines) == Units(b.lines) && RestartRank(a.state) < RestartRank(b.state))
    || (Units(a.lines) == Units(b.lines) && RestartRank(a.state) == RestartRank(b.state) && |a.lines| < |b.lines|)
    || (Units(a.lines) == Units(b.lines) && RestartRank(a.state) == RestartRank(b.state) && |a.lines| == |b.lines|
        && StateRank(a.state) < StateRank(b.state))
  }

  lemma {:induction false} HeaderLowers(p: Parser, pos: Text)
    ensures var (q, next) := HeaderState(p, pos); next.Some? && p.state == Header ==> Lower(q, p)
  {
  }

  lemma {:induction false} Win31LineLowers(p: Parser, pos: Text)
    ensures var (q, next) := Win31LineState(p, pos); next.Some? && p.state == Win31Line ==> Lower(q, p)
  {
    assert CLASSES_ROOT != [];
  }

  lemma {:induction false} LineStartLowers(p: Parser, pos: Text)
    ensures var (q, next) := LineStartState(p, pos); next.Some? && p.state == LineStart ==> Lower(q, p)
  {
  }

  lemma {:induction false} HexMultilineLowers(env: Env, p: Parser, pos: Text)
    ensures var (q, next) := HexMultilineState(env, p, pos); next.Some? && p.state == HexMultiline ==> Lower(q, p)
  {
    var restarted: seq<Text> := [[]];
    assert restarted[1..] == [];
  }

  predicate ReadsLine(s: State) {
    s == Header || s == Win31Line || s == LineStart || s == HexMultiline
  }

  /** The other states stay on their line and move down in rank. */
  ghost predicate Descends(p: Parser, o: Outcome) {
    && o.0.lines == p.lines && o.0.state != Header
    && (o.1.Some? ==> || RestartRank(o.0.state) < RestartRank(p.state)
                      || (RestartRank(o.0.state) == RestartRank(p.state) && StateRank(o.0.state) < StateRank(p.state)))
  }

  lemma {:induction false} KeyNameDescends(p: Parser, pos: Text)
    requires p.state == KeyName
    ensures Descends(p, KeyNameState(p, pos))
  {
  }

  lemma {:induction false} DeleteKeyDescends(p: Parser, pos: Text)
    requires p.state == DeleteKey
    ensures Descends(p, DeleteKeyState(p, pos))
  {
  }

  lemma {:induction false} DefaultNameDescends(p: Parser, pos: Text)
    requires p.state == DefaultValueName
    ensures Descends(p, DefaultValueNameState(p, pos))
  {
  }

  lemma {:induction false} QuotedNameDescends(p: Parser, pos: Text)
    requires p.state == QuotedValueName
    ensures Descends(p, QuotedValueNameState(p, pos))
  {
  }

  lemma {:induction false} DataStartDescends(p: Parser, pos: Text)
    requires p.state == DataStart
    ensures Descends(p, DataStartState(p, pos))
  {
  }

  lemma {:induction false} DeleteValueDescends(p: Parser, pos: Text)
    requires p.state == DeletingValue
    ensures Descends(p, DeleteValueState(p, pos))
  {
  }

  lemma {:induction false} DataTypeDescends(p: Parser, pos: Text)
    requires p.state == DataType
    ensures Descends(p, DataTypeState(p, pos))
  {
  }

  lemma {:induction false} StringDataDescends(env: Env, p: Parser, pos: Text)
    requires p.state == StringData
    ensures Descends(p, StringDataState(env, p, pos))
  {
  }

  lemma {:induction false} DwordDataDescends(p: Parser, pos: Text)
    requires p.state == DwordData
    ensures Descends(p, DwordDataState(p, pos))
  {
  }

  lemma {:induction false} EolBackslashDescends(p: Parser, pos: Text)
    requires p.state == EolBackslash
    ensures Descends(p, EolBackslashState(p, pos))
  {
  }

  lemma {:induction false} SetValueDescends(p: Parser, pos: Text)
    requires p.state == SettingValue
    ensures Descends(p, SetValueState(p, pos))
  {
  }

  lemma {:induction false} HexDataDescends(env: Env, p: Parser, pos: Text)
    requires p.state == HexData
    ensures Descends(p, HexDataState(env, p, pos))
  {
    hide DecodeCsv, Terminated;
  }

  /** Every state that reads no line stays on its line and moves down. */
  lemma {:induction false} ParsingDescends(env: Env, p: Parser, pos: Text)
    requires !ReadsLine(p.state)
    ensures Descends(p, Step(env, p, pos))
  {
    match p.state
    case KeyName => KeyNameDescends(p, pos);
    case DeleteKey => DeleteKeyDescends(p, pos);
    case DefaultValueName => DefaultNameDescends(p, pos);
    case QuotedValueName => QuotedNameDescends(p, pos);
    case DataStart => DataStartDescends(p, pos);
    case DeletingValue => DeleteValueDescends(p, pos);
    case DataType => DataTypeDescends(p, pos);
    case StringData => StringDataDescends(env, p, pos);
    case DwordData => DwordDataDescends(p, pos);
    case EolBackslash => EolBackslashDescends(p, pos);
    case SettingValue => SetValueDescends(p, pos);
    case HexData => HexDataDescends(env, p, pos);
    case UnknownData =>
  }

  lemma {:induction false} StepLowers(env: Env, p: Parser, pos: Text)
    ensures var (q, next) := Step(env, p, pos); next.Some? ==> Lower(q, p)
  {
    match p.state
    case Header => HeaderLowers(p, pos);
    case Win31Line => Win31LineLowers(p, pos);
    case LineStart => LineStartLowers(p, pos);
    case HexMultiline => HexMultilineLowers(env, p, pos);
    case _ => ParsingDescends(env, p, pos);
  }

  /** The main loop: runs the state functions until one returns NULL. */
  function Run(env: Env, p: Parser, pos: Text): Parser
    decreases Units(p.lines), RestartRank(p.state), |p.lines|, StateRank(p.state)
  {
    StepLowers(env, p, pos);
    var (q, next) := Step(env, p, pos);
    if next.None? then q else Run(env, q, next.value)
  }

  function Initial(lines: seq<Text>, erange: bool): Parser {
    Parser(Header, None, None, None, None, 0, 0, Null, 0, false, erange, false, Memory(0, {}, [], 0), lines, [])
  }

  datatype Result = Exited(calls: seq<Call>) | Returned(ok: bool, calls: seq<Call>)

  /** import_registry_file on the lines of a Unicode file. */
  function Import(env: Env, lines: seq<Text>, erange: bool): Result {
    var p := Run(env, Initial(lines, erange), []);
    if p.exited then Exited(p.calls)
    else if p.version == Some(Fuzzy) || p.version == Some(Invalid) then Returned(p.version == Some(Fuzzy), p.calls)
    else Returned(true, CloseCurrent(p).calls)
  }
}
