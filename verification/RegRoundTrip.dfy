/**
 Exporting a key tree and importing the file again: what comes back for every tree,
 and exactly when it is the same tree.
 */
module RegRoundTrip {
  import opened Basics
  import opened WideText
  import opened StringEscape
  import opened HexCodec
  import opened Registry
  import opened RegImport
  import opened LineReader
  import opened RegExport
  import opened RegChunks

  // ------------------------------------------------------- what a value becomes

  /** The data of a value after export and import. */
  function CanonData(env: Env, v: Value): seq<Byte>
    requires Exportable(v)
  {
    if v.typ == REG_SZ then ToBytes(CString(StringUnits(v.data)) + [NUL])
    else if !AsHex(v) then v.data[..4]
    else if StringType(v.typ) && v.data != [] then Terminated(env, v.data)
    else v.data
  }

  function Canon(env: Env, v: Value): Value
    requires Exportable(v)
  {
    v.(data := CanonData(env, v))
  }

  function CanonValues(env: Env, vs: seq<Value>): (r: seq<Value>)
    requires forall v :: v in vs ==> Exportable(v)
    ensures |r| == |vs|
  {
    if vs == [] then [] else [Canon(env, vs[0])] + CanonValues(env, vs[1..])
  }

  lemma {:induction false} CanonValuesAt(env: Env, vs: seq<Value>, i: nat)
    requires i < |vs| && forall v :: v in vs ==> Exportable(v)
    ensures CanonValues(env, vs)[i] == Canon(env, vs[i])
  {
    if i > 0 { CanonValuesAt(env, vs[1..], i - 1); }
  }

  function CanonTree(env: Env, t: KeyTree): KeyTree
    requires ExportableTree(t)
    decreases t, 1
  {
    KeyTree(t.name, CanonValues(env, t.values), CanonForest(env, t.subkeys))
  }

  function CanonForest(env: Env, ts: seq<KeyTree>): (r: seq<KeyTree>)
    requires forall t :: t in ts ==> ExportableTree(t)
    ensures |r| == |ts| && forall i :: 0 <= i < |ts| ==> r[i].name == ts[i].name
    decreases ts, 0
  {
    if ts == [] then [] else [CanonTree(env, ts[0])] + CanonForest(env, ts[1..])
  }

  // ------------------------------------------------------------- running states

  /** The two versions that have keys in brackets. */
  predicate Modern(v: Option<Version>) {
    v == Some(V40) || v == Some(V50)
  }

  /** Between values: at the start of a line of a version 4 or 5 file, with no value data in hand. */
  ghost predicate Ready(p: Parser) {
    p.state == LineStart && Modern(p.version) && p.data == Null && p.dataSize == 0 && !p.exited
  }

  /** The same position between values with some more calls made. */
  ghost predicate Advanced(p: Parser, q: Parser, lines: seq<Text>, calls: seq<Call>) {
    && Ready(q) && q.lines == lines && q.calls == p.calls + calls
    && q.hkey == p.hkey && q.keyName == p.keyName && q.erange == p.erange
  }

  lemma {:induction false} Take(env: Env, p: Parser, pos: Text, q: Parser, next: Text)
    requires Step(env, p, pos) == (q, Some(next))
    ensures Run(env, p, pos) == Run(env, q, next)
  {
  }

  lemma {:induction false} AnyPosition(env: Env, p: Parser, a: Text, b: Text)
    requires p.state == LineStart
    ensures Run(env, p, a) == Run(env, p, b)
  {
    RunStep(env, p, a);
    RunStep(env, p, b);
  }

  // ----------------------------------------------------------- from line to data

  lemma {:induction false} StepLine(env: Env, p: Parser, pos: Text, line: Text, more: seq<Text>, q: Parser, next: Text)
    requires p.state == LineStart && p.data == Null && p.lines == [line] + more && line != [] && !IsBlank(line[0])
    requires ClassifyLine(p.(lines := more), line) == (q, Some(next))
    ensures Run(env, p, pos) == Run(env, q, next)
  {
    assert p.lines[1..] == more;
    Take(env, p, pos, q, next);
  }

  lemma {:induction false} StepQuotedName(env: Env, p: Parser, name: Text, rest: Text)
    requires p.state == QuotedValueName && NulFree(name)
    ensures Run(env, p, Escape(name) + [QUOTE] + rest) == Run(env, p.(valueName := Some(name), state := DataStart), rest)
  {
    UnescapeEscape(name, rest);
    Take(env, p, Escape(name) + [QUOTE] + rest, p.(valueName := Some(name), state := DataStart), rest);
  }

  lemma {:induction false} StepDataStart(env: Env, p: Parser, data: Text)
    requires p.state == DataStart
    requires data != [] && !IsBlank(data[0]) && data[0] != MINUS && !IsBlank(data[|data| - 1])
    ensures Run(env, p, [EQUALS] + data) == Run(env, p.(state := DataType), data)
  {
    var rest := [EQUALS] + data;
    assert rest[1..] == data;
    Take(env, p, rest, p.(state := DataType), data);
  }

  /** The parser at the data of a value, with the value's name. */
  ghost function AtData(p: Parser, name: Text, more: seq<Text>): Parser {
    p.(lines := more, valueName := if name == [] then None else Some(name), state := DataType)
  }

  /** Line start, value name and equals sign: the parser arrives at the data with the name in hand. */
  lemma {:induction false} RunName(env: Env, p: Parser, pos: Text, name: Text, data: Text, more: seq<Text>)
    requires Ready(p) && NulFree(name) && p.lines == [ValueNameText(name) + data] + more
    requires data != [] && !IsBlank(data[0]) && data[0] != MINUS && !IsBlank(data[|data| - 1])
    ensures Run(env, p, pos) == Run(env, AtData(p, name, more), data)
  {
    var line := ValueNameText(name) + data;
    var rest := [EQUALS] + data;
    var p1 := p.(lines := more);
    if name == [] {
      assert line == [AT] + rest && line[1..] == rest;
      StepLine(env, p, pos, line, more, p1.(state := DefaultValueName), line);
      Take(env, p1.(state := DefaultValueName), line, p1.(valueName := None, state := DataStart), rest);
    } else {
      NamedLine(name, data);
      StepLine(env, p, pos, line, more, p1.(state := QuotedValueName), Escape(name) + [QUOTE] + rest);
      StepQuotedName(env, p1.(state := QuotedValueName), name, rest);
    }
    StepDataStart(env, AtData(p, name, more).(state := DataStart), data);
  }

  lemma {:induction false} NamedLine(name: Text, data: Text)
    requires name != []
    ensures var line := ValueNameText(name) + data;
      line[0] == QUOTE && line[1..] == Escape(name) + [QUOTE] + ([EQUALS] + data)
  {
  }

  /** The end of every value: the write, and back to the start of a line. */
  lemma {:induction false} RunSet(env: Env, p: Parser, pos: Text)
    requires p.state == SettingValue && Modern(p.version) && !p.exited
    ensures var q := Step(env, p, pos).0;
      && Ready(q) && q.lines == p.lines && q.hkey == p.hkey && q.keyName == p.keyName && q.erange == p.erange
      && q.calls == p.calls + [SetValue(p.hkey, Value(NameOf(p.valueName), p.dataType, Payload(p)))]
      && Run(env, p, pos) == Run(env, q, [])
  {
    var q := Step(env, p, pos).0;
    Take(env, p, pos, q, pos);
    AnyPosition(env, q, pos, []);
  }

  lemma {:induction false} NamedBack(name: Text)
    ensures NameOf(if name == [] then None else Some(name)) == name
  {
  }

  lemma {:induction false} EscapeCString(s: Text)
    ensures Escape(CString(s)) == Escape(s)
  {
    if s == [] || s[0] == NUL {
    } else {
      EscapeCString(s[1..]);
      assert CString(s)[1..] == CString(s[1..]);
    }
  }

  /** The parser after quoted data, about to write it. */
  ghost function WithString(p: Parser, s: Text): Parser {
    p.(parseType := REG_SZ, dataType := REG_SZ, data := Line(s), dataSize := 2 * (|s| + 1), state := SettingValue)
  }

  lemma {:induction false} StepQuoteTag(env: Env, p: Parser, body: Text)
    requires p.state == DataType
    ensures Run(env, p, [QUOTE] + body) == Run(env, p.(parseType := REG_SZ, dataType := REG_SZ, state := StringData), body)
  {
    var data := [QUOTE] + body;
    assert data[1..] == body && data[0] == QUOTE;
    Take(env, p, data, p.(parseType := REG_SZ, dataType := REG_SZ, state := StringData), body);
  }

  lemma {:induction false} StepStringData(env: Env, p: Parser, s: Text)
    requires p.state == StringData && NulFree(s)
    ensures Run(env, p, Escape(s) + [QUOTE]) ==
      Run(env, p.(data := Line(s), dataSize := 2 * (|s| + 1), state := SettingValue), [])
  {
    UnescapeEscape(s, []);
    assert Escape(s) + [QUOTE] + [] == Escape(s) + [QUOTE];
    Take(env, p, Escape(s) + [QUOTE], p.(data := Line(s), dataSize := 2 * (|s| + 1), state := SettingValue), []);
  }

  /** Quoted data from its opening quote to the write. */
  lemma {:induction false} RunQuoted(env: Env, p: Parser, units: Text)
    requires p.state == DataType
    ensures var q := WithString(p, CString(units));
      Run(env, p, [QUOTE] + (Escape(units) + [QUOTE])) == Run(env, q, []) && Payload(q) == ToBytes(CString(units) + [NUL])
  {
    EscapeCString(units);
    StepQuoteTag(env, p, Escape(units) + [QUOTE]);
    StepStringData(env, p.(parseType := REG_SZ, dataType := REG_SZ, state := StringData), CString(units));
  }

  lemma {:induction false} StringLine(v: Value)
    requires Exportable(v) && v.typ == REG_SZ
    ensures ValueLines(v) == [ValueNameText(v.name) + ([QUOTE] + (Escape(StringUnits(v.data)) + [QUOTE]))]
  {
    var name, body := ValueNameText(v.name), Escape(StringUnits(v.data));
    assert name + [QUOTE] + body + [QUOTE] == name + ([QUOTE] + (body + [QUOTE]));
  }

  lemma {:induction false} RunString(env: Env, p: Parser, pos: Text, v: Value, more: seq<Text>) returns (q: Parser)
    requires Ready(p) && Exportable(v) && v.typ == REG_SZ && p.lines == ValueLines(v) + more
    ensures Run(env, p, pos) == Run(env, q, []) && Advanced(p, q, more, [SetValue(p.hkey, Canon(env, v))])
  {
    var units := StringUnits(v.data);
    StringLine(v);
    RunName(env, p, pos, v.name, [QUOTE] + (Escape(units) + [QUOTE]), more);
    RunQuoted(env, AtData(p, v.name, more), units);
    var p3 := WithString(AtData(p, v.name, more), CString(units));
    RunSet(env, p3, []);
    NamedBack(v.name);
    q := Step(env, p3, []).0;
  }

  // ---------------------------------------------------------------------- dwords

  lemma {:induction false} Digit256(b: Byte, rest: nat)
    ensures (b + 256 * rest) % 256 == b && (b + 256 * rest) / 256 == rest
  {
  }

  lemma {:induction false} DivTwice(n: nat)
    ensures n / 65536 == n / 256 / 256 && n / 16777216 == n / 256 / 256 / 256
  {
  }

  lemma {:induction false} DwordRoundTrip(data: seq<Byte>)
    requires |data| >= 4
    ensures Little(Dword(data)) == data[..4]
  {
    var a, b, c, d := data[0] as int, data[1] as int, data[2] as int, data[3] as int;
    Digit256(a, b + 256 * (c + 256 * d));
    Digit256(b, c + 256 * d);
    Digit256(c, d);
    DivTwice(Dword(data));
    assert Dword(data) == a + 256 * (b + 256 * (c + 256 * d));
  }

  lemma {:induction false} ConvertPadded(n: nat)
    requires n < UINT32
    ensures ConvertDword(HexPadded(n, 8)) == Some(n)
  {
    var s := HexPadded(n, 8);
    assert s != [] && IsHex(s[0]);
    assert SkipBlanks(s) == s;
    assert s + [] == s;
    HexRunOf(s, []);
    assert s[..8] == s && s[8..] == [];
    Pow16Eight();
    HexPaddedValue(n, 8);
  }

  lemma {:induction false} RunDwordData(env: Env, p: Parser, n: nat) returns (q: Parser)
    requires p.state == DataType && n < UINT32
    ensures q == p.(parseType := REG_DWORD, dataType := REG_DWORD, memory := q.memory, data := q.data, dataSize := 4, state := SettingValue)
    ensures Run(env, p, DWORD_TAG + HexPadded(n, 8)) == Run(env, q, HexPadded(n, 8)) && Payload(q) == Little(n)
  {
    var data := DWORD_TAG + HexPadded(n, 8);
    var p2 := p.(parseType := REG_DWORD, dataType := REG_DWORD, state := DwordData);
    assert data[6..] == HexPadded(n, 8) && DWORD_TAG <= data && data[0] == DWORD_TAG[0];
    Take(env, p, data, p2, HexPadded(n, 8));
    ConvertPadded(n);
    q := Step(env, p2, HexPadded(n, 8)).0;
    Take(env, p2, HexPadded(n, 8), q, HexPadded(n, 8));
  }

  lemma {:induction false} RunDword(env: Env, p: Parser, pos: Text, v: Value, more: seq<Text>) returns (q: Parser)
    requires Ready(p) && Exportable(v) && v.typ == REG_DWORD && v.data != [] && p.lines == ValueLines(v) + more
    ensures Run(env, p, pos) == Run(env, q, []) && Advanced(p, q, more, [SetValue(p.hkey, Canon(env, v))])
  {
    var n := Dword(v.data);
    var data := DWORD_TAG + HexPadded(n, 8);
    Associate(ValueNameText(v.name), DWORD_TAG, HexPadded(n, 8));
    assert data[0] == DWORD_TAG[0] && data[|data| - 1] == HexPadded(n, 8)[7];
    RunName(env, p, pos, v.name, data, more);
    var p3 := RunDwordData(env, AtData(p, v.name, more), n);
    DwordRoundTrip(v.data);
    RunSet(env, p3, HexPadded(n, 8));
    NamedBack(v.name);
    q := Step(env, p3, HexPadded(n, 8)).0;
  }

  // -------------------------------------------------------------------- hex data

  /** errno left over from an earlier overflow makes the importer refuse the largest type number. */
  predicate TypeReadable(typ: nat, erange: bool) {
    typ < UINT32 && (erange ==> typ != UINT32 - 1)
  }

  lemma {:induction false} ParseTypeBack(typ: nat, body: Text, erange: bool)
    requires TypeReadable(typ, erange)
    ensures ParseHexType(HexText(typ) + ([RPAREN, COLON] + body), erange) == (Some((typ, body)), erange)
  {
    var digits := HexText(typ);
    var rest := [RPAREN, COLON] + body;
    var s := digits + rest;
    HexTextValue(typ);
    WcstoulDigits(digits, rest);
    assert s[|digits|..] == rest && rest[2..] == body;
    assert s[1] == if |digits| > 1 then digits[1] else RPAREN;
  }

  /** The tag of a numbered type, followed by its data, as the pieces parse_data_type meets. */
  lemma {:induction false} TagPieces(typ: nat, body: Text)
    requires typ != REG_BINARY
    ensures var data := HexTypeTag(typ) + body;
      && HEX_TYPE_TAG <= data && data[4..] == HexText(typ) + ([RPAREN, COLON] + body)
      && data[0] == 0x68 && data[3] == 0x28
  {
    var data := HexTypeTag(typ) + body;
    assert data == HEX_TYPE_TAG + (HexText(typ) + ([RPAREN, COLON] + body));
    assert data[0] == HEX_TYPE_TAG[0] && data[3] == HEX_TYPE_TAG[3];
  }

  lemma {:induction false} TagChoice(p: Parser, typ: nat, body: Text)
    requires typ != REG_BINARY && TypeReadable(typ, p.erange)
    ensures DataTypeState(p, HexTypeTag(typ) + body) ==
      (p.(parseType := REG_BINARY, dataType := typ, state := HexData), Some(body))
  {
    hide ParseHexType, Wcstoul;
    TagPieces(typ, body);
    ParseTypeBack(typ, body, p.erange);
    assert HEX_TAG[3] == COLON && DWORD_TAG[0] == 0x64;
  }

  lemma {:induction false} RunTag(env: Env, p: Parser, typ: nat, body: Text)
    requires p.state == DataType && TypeReadable(typ, p.erange)
    ensures var q := p.(parseType := REG_BINARY, dataType := typ, state := HexData);
      Run(env, p, HexTypeTag(typ) + body) == Run(env, q, body)
  {
    var data := HexTypeTag(typ) + body;
    if typ == REG_BINARY {
      assert data[0] == HEX_TAG[0] && HEX_TAG <= data && data[4..] == body;
    } else {
      TagChoice(p, typ, body);
    }
    Take(env, p, data, p.(parseType := REG_BINARY, dataType := typ, state := HexData), body);
  }

  /** The parser while hex data accumulates. */
  ghost predicate Gathering(p: Parser, bytes: seq<Byte>) {
    && p.state == HexData && Modern(p.version) && !p.exited && p.parseType == REG_BINARY
    && !p.data.Line? && HeapBytes(p.data) == bytes && p.dataSize == |bytes|
  }

  ghost predicate SameContext(p: Parser, q: Parser) {
    && q.version == p.version && q.exited == p.exited && q.hkey == p.hkey && q.keyName == p.keyName
    && q.valueName == p.valueName && q.dataType == p.dataType && q.calls == p.calls && q.erange == p.erange
  }

  /** What the data becomes once the last row is in. */
  function Finished(env: Env, typ: nat, bytes: seq<Byte>): seq<Byte> {
    if StringType(typ) then Terminated(env, bytes) else bytes
  }

  lemma {:induction false} HexStep(env: Env, p: Parser, text: Text, csv: Csv)
    requires p.state == HexData && text != [] && DecodeCsv(text) == csv
    ensures Step(env, p, text) == AfterCsv(env, ConvertCsv(p, csv), csv, text)
  {
  }

  /** Growing the block and appending a row. */
  lemma {:induction false} Converted(p: Parser, got: seq<Byte>, csv: Csv)
    requires Gathering(p, got) && !csv.overflow
    ensures var q := ConvertCsv(p, csv);
      Gathering(q, got + csv.bytes) && q.data.Heap? && SameContext(p, q) && q.lines == p.lines
  {
  }

  lemma {:induction false} PreparedPayload(env: Env, p: Parser)
    requires p.data.Heap? && p.dataSize == |p.data.bytes|
    ensures Payload(PrepareHexString(env, p).(state := SettingValue)) == Finished(env, p.dataType, p.data.bytes)
  {
  }

  /** The last row of hex data leads to the write. */
  lemma {:induction false} RunLastRow(env: Env, p: Parser, got: seq<Byte>, row: seq<Byte>) returns (q: Parser)
    requires Gathering(p, got) && row != []
    ensures Run(env, p, CsvText(row)) == Run(env, q, CsvText(row))
    ensures q.state == SettingValue && SameContext(p, q) && q.lines == p.lines
    ensures Payload(q) == Finished(env, p.dataType, got + row)
  {
    var text, csv := CsvText(row), Csv(true, row, false, [], false);
    DecodeRow(row);
    CsvTextOneLine(row);
    HexStep(env, p, text, csv);
    Converted(p, got, csv);
    q := PrepareHexString(env, ConvertCsv(p, csv)).(state := SettingValue);
    Take(env, p, text, q, text);
    PreparedPayload(env, ConvertCsv(p, csv));
  }

  lemma {:induction false} RunEol(env: Env, p: Parser)
    requires p.state == EolBackslash
    ensures Run(env, p, []) == Run(env, p.(state := HexMultiline), [])
  {
    Take(env, p, [], p.(state := HexMultiline), []);
  }

  /** A row cut by the exporter sends the parser to the next line. */
  lemma {:induction false} RunCutRow(env: Env, p: Parser, got: seq<Byte>, row: seq<Byte>) returns (q: Parser)
    requires Gathering(p, got) && row != []
    ensures Run(env, p, CsvText(row) + [COMMA, BACKSLASH]) == Run(env, q, [])
    ensures q.state == HexMultiline && Gathering(q.(state := HexData), got + row) && q.data.Heap?
    ensures SameContext(p, q) && q.lines == p.lines
  {
    var text, csv := CsvText(row) + [COMMA, BACKSLASH], Csv(true, row, true, [], false);
    DecodeCutRow(row);
    HexStep(env, p, text, csv);
    Converted(p, got, csv);
    var p1 := ConvertCsv(p, csv).(state := EolBackslash);
    Take(env, p, text, p1, []);
    RunEol(env, p1);
    q := p1.(state := HexMultiline);
  }

  lemma {:induction false} RunNextRow(env: Env, p: Parser, s: Text, more: seq<Text>)
    requires p.state == HexMultiline && !p.data.Line? && p.lines == [[SPACE, SPACE] + s] + more
    requires s != [] && IsHex(s[0])
    ensures Run(env, p, []) == Run(env, p.(state := HexData, lines := more), s)
  {
    SkipThem([SPACE, SPACE], s);
    assert p.lines[1..] == more;
    Take(env, p, [], p.(state := HexData, lines := more), s);
  }

  lemma {:induction false} RowEndStarts(rows: seq<seq<Byte>>)
    requires rows != [] && rows[0] != []
    ensures RowEnd(rows) != [] && IsHex(RowEnd(rows)[0]) && !IsBlank(RowEnd(rows)[|RowEnd(rows)| - 1])
  {
    CsvTextOneLine(rows[0]);
    assert RowEnd(rows)[0] == CsvText(rows[0])[0];
  }

  lemma {:induction false} RowSplit(got: seq<Byte>, rows: seq<seq<Byte>>, more: seq<Text>)
    requires |rows| > 1
    ensures MoreRows(rows) + more == [[SPACE, SPACE] + RowEnd(rows[1..])] + (MoreRows(rows[1..]) + more)
    ensures (got + rows[0]) + Concat(rows[1..]) == got + Concat(rows)
    ensures RowEnd(rows) == CsvText(rows[0]) + [COMMA, BACKSLASH]
  {
  }

  lemma {:induction false} RowLast(got: seq<Byte>, rows: seq<seq<Byte>>, more: seq<Text>)
    requires |rows| == 1
    ensures MoreRows(rows) + more == more && got + rows[0] == got + Concat(rows) && RowEnd(rows) == CsvText(rows[0])
  {
    assert rows[1..] == [] && Concat(rows) == rows[0] + [];
  }

  lemma {:induction false} RunRowBreak(env: Env, p: Parser, got: seq<Byte>, rows: seq<seq<Byte>>, more: seq<Text>)
    returns (q: Parser)
    requires Gathering(p, got) && |rows| > 1 && rows[0] != [] && rows[1] != [] && p.lines == MoreRows(rows) + more
    ensures Run(env, p, RowEnd(rows)) == Run(env, q, RowEnd(rows[1..]))
    ensures Gathering(q, got + rows[0]) && SameContext(p, q) && q.lines == MoreRows(rows[1..]) + more
  {
    var p1 := RunCutRow(env, p, got, rows[0]);
    var next := rows[1..];
    RowEndStarts(next);
    var rest := MoreRows(next) + more;
    RowSplit(got, rows, more);
    RunNextRow(env, p1, RowEnd(next), rest);
    q := p1.(state := HexData, lines := rest);
  }

  /** All rows through HexData, EolBackslash and HexMultiline: every byte arrives, in order. */
  lemma {:induction false} RunRows(env: Env, p: Parser, got: seq<Byte>, rows: seq<seq<Byte>>, more: seq<Text>)
    returns (q: Parser, pos: Text)
    requires Gathering(p, got) && rows != [] && p.lines == MoreRows(rows) + more
    requires forall i :: 0 <= i < |rows| ==> rows[i] != []
    ensures Run(env, p, RowEnd(rows)) == Run(env, q, pos)
    ensures q.state == SettingValue && SameContext(p, q) && q.lines == more
    ensures Payload(q) == Finished(env, p.dataType, got + Concat(rows))
    decreases rows
  {
    if |rows| == 1 {
      RowLast(got, rows, more);
      pos := CsvText(rows[0]);
      q := RunLastRow(env, p, got, rows[0]);
    } else {
      var p1 := RunRowBreak(env, p, got, rows, more);
      RowSplit(got, rows, more);
      q, pos := RunRows(env, p1, got + rows[0], rows[1..], more);
    }
  }

  lemma {:induction false} TagStarts(typ: nat, body: Text)
    requires body == [] || !IsBlank(body[|body| - 1])
    ensures var data := HexTypeTag(typ) + body;
      data != [] && data[0] == 0x68 && !IsBlank(data[|data| - 1])
  {
    var data := HexTypeTag(typ) + body;
    assert data[0] == HexTypeTag(typ)[0];
    assert body == [] ==> data == HexTypeTag(typ) && data[|data| - 1] == COLON;
  }

  /** The bytes on a value's first line, and the lines after it. */
  function FirstRow(v: Value): Text {
    if v.data == [] then [] else RowEnd(HexRows(v.data, |HexPrefix(v)|))
  }

  function LaterRows(v: Value): seq<Text> {
    if v.data == [] then [] else MoreRows(HexRows(v.data, |HexPrefix(v)|))
  }

  lemma {:induction false} HexLines(v: Value, more: seq<Text>)
    requires Exportable(v) && AsHex(v)
    ensures ValueLines(v) + more == [ValueNameText(v.name) + (HexTypeTag(v.typ) + FirstRow(v))] + (LaterRows(v) + more)
    ensures FirstRow(v) == [] || !IsBlank(FirstRow(v)[|FirstRow(v)| - 1])
  {
    if v.data != [] { RowEndStarts(HexRows(v.data, |HexPrefix(v)|)); }
    Associate(ValueNameText(v.name), HexTypeTag(v.typ), FirstRow(v));
    assert v.data == [] ==> HexPrefix(v) + [] == HexPrefix(v);
  }

  lemma {:induction false} RunHex(env: Env, p: Parser, pos: Text, v: Value, more: seq<Text>) returns (q: Parser)
    requires Ready(p) && Exportable(v) && AsHex(v) && p.lines == ValueLines(v) + more && TypeReadable(v.typ, p.erange)
    ensures Run(env, p, pos) == Run(env, q, []) && Advanced(p, q, more, [SetValue(p.hkey, Canon(env, v))])
  {
    hide Run, LaterRows, FirstRow;
    var rest := LaterRows(v) + more;
    HexLines(v, more);
    TagStarts(v.typ, FirstRow(v));
    RunName(env, p, pos, v.name, HexTypeTag(v.typ) + FirstRow(v), rest);
    var p1 := AtData(p, v.name, rest);
    RunTag(env, p1, v.typ, FirstRow(v));
    q := RunHexBody(env, p1.(parseType := REG_BINARY, dataType := v.typ, state := HexData), v, more);
    NamedBack(v.name);
  }

  lemma {:induction false} RunHexBody(env: Env, p: Parser, v: Value, more: seq<Text>) returns (q: Parser)
    requires Gathering(p, []) && p.data == Null && Exportable(v) && AsHex(v) && p.dataType == v.typ
    requires p.lines == LaterRows(v) + more
    ensures Run(env, p, FirstRow(v)) == Run(env, q, [])
    ensures Advanced(p, q, more, [SetValue(p.hkey, Value(NameOf(p.valueName), v.typ, CanonData(env, v)))])
  {
    if v.data == [] {
      var p2 := p.(state := SettingValue);
      Take(env, p, [], p2, []);
      RunSet(env, p2, []);
      q := Step(env, p2, []).0;
    } else {
      var rows := HexRows(v.data, |HexPrefix(v)|);
      RowsFlatten(v.data, |HexPrefix(v)|);
      var p2, pos := RunRows(env, p, [], rows, more);
      assert [] + Concat(rows) == v.data;
      RunSet(env, p2, pos);
      q := Step(env, p2, pos).0;
    }
  }

  /** One exported value, whatever its kind, is written back as its canonical form. */
  lemma {:induction false} RunValue(env: Env, p: Parser, pos: Text, v: Value, more: seq<Text>) returns (q: Parser)
    requires Ready(p) && Exportable(v) && p.lines == ValueLines(v) + more && TypeReadable(v.typ, p.erange)
    ensures Run(env, p, pos) == Run(env, q, []) && Advanced(p, q, more, [SetValue(p.hkey, Canon(env, v))])
  {
    if v.typ == REG_SZ {
      q := RunString(env, p, pos, v, more);
    } else if !AsHex(v) {
      q := RunDword(env, p, pos, v, more);
    } else {
      q := RunHex(env, p, pos, v, more);
    }
  }

  lemma {:induction false} RunValues(env: Env, p: Parser, k: KeyPath, vs: seq<Value>, more: seq<Text>) returns (q: Parser)
    requires forall v :: v in vs ==> Exportable(v) && TypeReadable(v.typ, p.erange)
    requires Ready(p) && p.hkey == Some(k) && p.lines == ValuesLines(vs) + more
    ensures Run(env, p, []) == Run(env, q, []) && Advanced(p, q, more, SetCalls(k, CanonValues(env, vs)))
    decreases vs
  {
    if vs == [] {
      q := p;
    } else {
      var rest := ValuesLines(vs[1..]) + more;
      Associate(ValueLines(vs[0]), ValuesLines(vs[1..]), more);
      var p1 := RunValue(env, p, [], vs[0], rest);
      q := RunValues(env, p1, k, vs[1..], more);
      SetCallsCons(k, Canon(env, vs[0]), CanonValues(env, vs[1..]));
      Associate(p.calls, [SetValue(Some(k), Canon(env, vs[0]))], SetCalls(k, CanonValues(env, vs[1..])));
    }
  }

  lemma {:induction false} SetCallsCons(k: KeyPath, v: Value, vs: seq<Value>)
    ensures SetCalls(k, [v] + vs) == [SetValue(Some(k), v)] + SetCalls(k, vs)
    decreases vs
  {
    var all := [v] + vs;
    if vs == [] {
      assert all[..0] == [];
    } else {
      var n := |vs| - 1;
      SetCallsCons(k, v, vs[..n]);
      assert all[..|all| - 1] == [v] + vs[..n];
    }
  }

  // ------------------------------------------------------------------- key names

  /** A full key name for k that a subkey name can be appended to. */
  ghost predicate ProperPath(path: Text, k: KeyPath) {
    && KeyNamed(path) == Some(k)
    && path != [] && path[|path| - 1] != BACKSLASH
    && OneLine(path) && NulFree(path)
  }

  lemma {:induction false} ClassNamesPlain(i: nat)
    requires i < |CLASS_NAMES|
    ensures CLASS_NAMES[i] != [] && BACKSLASH !in CLASS_NAMES[i] && CLASS_NAMES[i][0] == UPPER_H
  {
  }

  lemma {:induction false} ClassPrefixPlain(name: Text, i: nat)
    requires i < |CLASS_NAMES| && ClassMatches(name, i)
    ensures forall k :: 0 <= k < |CLASS_NAMES[i]| ==> name[k] != BACKSLASH
    ensures |name| > 0 && (name[0] == UPPER_H || name[0] == LOWER_H)
  {
    ClassNamesPlain(i);
    var c := CLASS_NAMES[i];
    var f := FoldText(name[..|c|]);
    assert f[0] == Fold(name[0]);
    forall k | 0 <= k < |c| ensures name[k] != BACKSLASH {
      assert f[k] == Fold(name[k]) && c[k] in c;
    }
  }

  lemma {:induction false} ClassMatchesExtend(path: Text, name: Text, i: nat)
    requires i < |CLASS_NAMES|
    ensures ClassMatches(path + [BACKSLASH] + name, i) == ClassMatches(path, i)
  {
    var c := CLASS_NAMES[i];
    var long := path + [BACKSLASH] + name;
    ClassNamesPlain(i);
    if |c| <= |path| {
      assert long[..|c|] == path[..|c|];
    } else if ClassMatches(long, i) {
      assert long[|path|] == BACKSLASH;
      ClassPrefixPlain(long, i);
      assert false;
    }
  }

  lemma {:induction false} FindClassExtend(path: Text, name: Text, i: nat)
    ensures FindClass(path + [BACKSLASH] + name, i) == FindClass(path, i)
    decreases |CLASS_NAMES| - i
  {
    if i < |CLASS_NAMES| {
      ClassMatchesExtend(path, name, i);
      FindClassExtend(path, name, i + 1);
    }
  }

  lemma {:induction false} FirstBackslashAt(t: Text, i: nat)
    requires i <= |t| && (i < |t| ==> t[i] == BACKSLASH) && forall k :: 0 <= k < i ==> t[k] != BACKSLASH
    ensures FirstBackslash(t) == i
  {
    assert !(FirstBackslash(t) < i);
  }

  lemma {:induction false} SplitPathAppend(path: Text, name: Text)
    requires BACKSLASH !in name
    ensures SplitPath(path + [BACKSLASH] + name) == SplitPath(path) + [name]
    decreases |path|
  {
    var long := path + [BACKSLASH] + name;
    var i := FirstBackslash(path);
    FirstBackslashAt(long, i);
    assert long[..i] == path[..i];
    FirstBackslashAt(name, |name|);
    if i == |path| {
      assert path[..i] == path && long[i + 1..] == name;
    } else {
      assert long[i + 1..] == path[i + 1..] + [BACKSLASH] + name;
      SplitPathAppend(path[i + 1..], name);
    }
  }

  /** The class name ends where the first backslash is. */
  lemma {:induction false} ClassEnds(name: Text)
    requires FindClass(name).Some?
    ensures FirstBackslash(name) == |CLASS_NAMES[FindClass(name).value]|
  {
    ClassPrefixPlain(name, FindClass(name).value);
    FirstBackslashAt(name, |CLASS_NAMES[FindClass(name).value]|);
  }

  lemma {:induction false} KeyNamedIs(name: Text, hive: nat, tail: Text)
    requires FindClass(name) == Some(hive) && FirstBackslash(name) < |name| && name[FirstBackslash(name) + 1..] == tail
    requires tail != [] && [] !in SplitPath(tail)
    ensures KeyNamed(name) == Some(KeyPath(hive, SplitPath(tail)))
  {
  }

  /** What follows the class in the extended path. */
  lemma {:induction false} SubkeyTail(path: Text, name: Text, n: nat)
    requires PlainName(name) && n <= |path| && (n < |path| ==> [] !in SplitPath(path[n + 1..]))
    ensures var tail := SubkeyPath(path, name)[n + 1..];
      && tail != [] && [] !in SplitPath(tail)
      && SplitPath(tail) == (if n == |path| then [] else SplitPath(path[n + 1..])) + [name]
  {
    var long := SubkeyPath(path, name);
    if n == |path| {
      assert long[n + 1..] == name;
      FirstBackslashAt(name, |name|);
    } else {
      var head := path[n + 1..];
      assert long[n + 1..] == head + [BACKSLASH] + name;
      SplitPathAppend(head, name);
    }
  }

  lemma {:induction false} ChildKeyNamed(path: Text, k: KeyPath, name: Text)
    requires KeyNamed(path) == Some(k) && path != [] && path[|path| - 1] != BACKSLASH && PlainName(name)
    ensures KeyNamed(SubkeyPath(path, name)) == Some(Child(k, name))
  {
    hide FindClass, SplitPath;
    var long := SubkeyPath(path, name);
    FindClassExtend(path, name, 0);
    ClassEnds(path);
    ClassEnds(long);
    var n := FirstBackslash(path);
    SubkeyTail(path, name, n);
    KeyNamedIs(long, k.hive, long[n + 1..]);
  }

  /** The path the exporter builds for a subkey names that subkey. */
  lemma {:induction false} ChildNamed(path: Text, k: KeyPath, name: Text)
    requires ProperPath(path, k) && PlainName(name)
    ensures ProperPath(SubkeyPath(path, name), Child(k, name))
  {
    ChildKeyNamed(path, k, name);
    var long := SubkeyPath(path, name);
    assert long[|long| - 1] == name[|name| - 1] && name[|name| - 1] in name;
  }

  lemma {:induction false} KeyNameStep(p: Parser, path: Text, k: KeyPath)
    requires ProperPath(path, k)
    ensures KeyNameState(p, path + [RBRACKET]) == (OpenNamed(p, path).(state := LineStart), Some(path))
  {
    var rest := path + [RBRACKET];
    KeyLineEnds(path);
    ClassPrefixPlain(path, FindClass(path).value);
    assert rest[..|path|] == path && rest[0] == path[0];
  }

  lemma {:induction false} BracketStep(env: Env, p: Parser, path: Text, more: seq<Text>)
    requires Ready(p) && p.lines == [[], [LBRACKET] + path + [RBRACKET]] + more
    ensures Run(env, p, []) == Run(env, p.(lines := more, state := KeyName), path + [RBRACKET])
  {
    var line := [LBRACKET] + path + [RBRACKET];
    var p1 := p.(lines := [line] + more);
    assert p.lines[1..] == [line] + more;
    Take(env, p, [], p1, []);
    assert line[1..] == path + [RBRACKET] && p1.lines[1..] == more;
    Take(env, p1, [], p.(lines := more, state := KeyName), path + [RBRACKET]);
  }

  lemma {:induction false} OpenNamedAs(p: Parser, path: Text, k: KeyPath)
    requires KeyNamed(path) == Some(k)
    ensures var q := CloseCurrent(p);
      OpenNamed(p, path) == q.(hkey := Some(k), keyName := Some(path), calls := q.calls + [CreateKey(k)])
  {
  }

  /** A key header line opens that key. */
  lemma {:induction false} RunKeyLine(env: Env, p: Parser, path: Text, k: KeyPath, more: seq<Text>) returns (q: Parser)
    requires Ready(p) && ProperPath(path, k) && p.lines == [[], [LBRACKET] + path + [RBRACKET]] + more
    ensures Run(env, p, []) == Run(env, q, [])
    ensures Ready(q) && q.hkey == Some(k) && q.lines == more && q.erange == p.erange
    ensures q.calls == CloseCurrent(p).calls + [CreateKey(k)]
  {
    var p2 := p.(lines := more, state := KeyName);
    BracketStep(env, p, path, more);
    KeyNameStep(p2, path, k);
    OpenNamedAs(p2, path, k);
    q := OpenNamed(p2, path).(state := LineStart);
    Take(env, p2, path + [RBRACKET], q, path);
    AnyPosition(env, q, path, []);
  }

  lemma {:induction false} KeyLineEnds(path: Text)
    ensures LastBracket(path + [RBRACKET]) == |path|
  {
    var s := path + [RBRACKET];
    assert s[|s| - 1] == RBRACKET;
  }

  // ----------------------------------------------------------------------- trees

  predicate ReadableTree(t: KeyTree, erange: bool)
    decreases t
  {
    && (forall v :: v in t.values ==> TypeReadable(v.typ, erange))
    && (forall s :: s in t.subkeys ==> ReadableTree(s, erange))
  }

  lemma {:induction false} TreeLinesSplit(path: Text, t: KeyTree, more: seq<Text>)
    requires ExportableTree(t)
    ensures TreeLines(path, t) + more
      == [[], [LBRACKET] + path + [RBRACKET]] + (ValuesLines(t.values) + (ForestLines(path, t.subkeys) + more))
  {
    hide ValuesLines, ForestLines;
    var head, values, subs := [[], [LBRACKET] + path + [RBRACKET]], ValuesLines(t.values), ForestLines(path, t.subkeys);
    Associate(head + values, subs, more);
    Associate(head, values, subs + more);
  }

  /** The calls for one key, closed, after those before it. */
  lemma {:induction false} KeyCallsSplit(before: seq<Call>, k: KeyPath, vs: seq<Value>)
    ensures ((before + [CreateKey(k)]) + SetCalls(k, vs)) + [CloseKey(k)] == before + KeyCalls(k, vs)
  {
  }

  lemma {:induction false} RunTree(env: Env, p: Parser, path: Text, k: KeyPath, t: KeyTree, more: seq<Text>) returns (q: Parser)
    requires Ready(p) && ProperPath(path, k) && ExportableTree(t) && ReadableTree(t, p.erange)
    requires p.lines == TreeLines(path, t) + more
    ensures Run(env, p, []) == Run(env, q, []) && Ready(q) && q.lines == more && q.erange == p.erange
    ensures CloseCurrent(q).calls == CloseCurrent(p).calls + TreeCalls(k, CanonTree(env, t))
    decreases t, 1
  {
    var subs := ForestLines(path, t.subkeys) + more;
    TreeLinesSplit(path, t, more);
    var p1 := RunKeyLine(env, p, path, k, ValuesLines(t.values) + subs);
    var p2 := RunValues(env, p1, k, t.values, subs);
    var before := CloseCurrent(p).calls;
    var canon := CanonValues(env, t.values);
    KeyCallsSplit(before, k, canon);
    q := RunForest(env, p2, path, k, t.subkeys, more);
    Associate(before, KeyCalls(k, canon), ForestCalls(k, CanonForest(env, t.subkeys)));
  }

  lemma {:induction false} RunForest(env: Env, p: Parser, path: Text, k: KeyPath, ts: seq<KeyTree>, more: seq<Text>) returns (q: Parser)
    requires forall t :: t in ts ==> PlainName(t.name) && ExportableTree(t) && ReadableTree(t, p.erange)
    requires Ready(p) && ProperPath(path, k) && p.lines == ForestLines(path, ts) + more
    ensures Run(env, p, []) == Run(env, q, []) && Ready(q) && q.lines == more && q.erange == p.erange
    ensures CloseCurrent(q).calls == CloseCurrent(p).calls + ForestCalls(k, CanonForest(env, ts))
    decreases ts, 0
  {
    if ts == [] {
      q := p;
    } else {
      var sub := SubkeyPath(path, ts[0].name);
      var c := Child(k, ts[0].name);
      Associate(TreeLines(sub, ts[0]), ForestLines(path, ts[1..]), more);
      ChildNamed(path, k, ts[0].name);
      var p1 := RunTree(env, p, sub, c, ts[0], ForestLines(path, ts[1..]) + more);
      q := RunForest(env, p1, path, k, ts[1..], more);
      CanonForestCons(env, k, ts);
      Associate(CloseCurrent(p).calls, TreeCalls(c, CanonTree(env, ts[0])), ForestCalls(k, CanonForest(env, ts[1..])));
    }
  }

  lemma {:induction false} CanonForestCons(env: Env, k: KeyPath, ts: seq<KeyTree>)
    requires ts != [] && forall t :: t in ts ==> ExportableTree(t)
    ensures ForestCalls(k, CanonForest(env, ts))
      == TreeCalls(Child(k, ts[0].name), CanonTree(env, ts[0])) + ForestCalls(k, CanonForest(env, ts[1..]))
  {
    var canon := CanonForest(env, ts);
    assert canon[0] == CanonTree(env, ts[0]) && canon[1..] == CanonForest(env, ts[1..]);
  }

  // ---------------------------------------------------------------- whole files

  lemma {:induction false} HeaderRead(env: Env, rest: seq<Text>, erange: bool) returns (p: Parser)
    ensures Run(env, Initial([HEADER_50] + rest, erange), []) == Run(env, p, [])
    ensures Ready(p) && p.lines == rest && p.hkey == None && p.calls == [] && p.erange == erange
  {
    var start := Initial([HEADER_50] + rest, erange);
    assert HEADER_50[0] == 0x57 && SkipBlanks(HEADER_50) == HEADER_50;
    assert |HEADER_50| != |HEADER_31| && |HEADER_50| != |HEADER_40|;
    assert ([HEADER_50] + rest)[1..] == rest;
    p := start.(lines := rest, version := Some(V50), state := LineStart);
    assert HeaderState(start, []) == (p, Some(HEADER_50));
    Take(env, start, [], p, HEADER_50);
    AnyPosition(env, p, HEADER_50, []);
  }

  lemma {:induction false} RunOut(env: Env, p: Parser)
    requires Ready(p) && p.lines == [[], []]
    ensures Run(env, p, []) == p.(lines := [[]])
  {
    var p1, p2 := p.(lines := [[]]), p.(lines := []);
    assert p.lines[1..] == [[]] && p1.lines[1..] == [];
    Take(env, p, [], p1, []);
    Take(env, p1, [], p2, []);
    RunStep(env, p2, []);
  }

  lemma {:induction false} ImportResult(env: Env, lines: seq<Text>, erange: bool)
    ensures var p := Run(env, Initial(lines, erange), []);
      !p.exited && Modern(p.version) ==> Import(env, lines, erange) == Returned(true, CloseCurrent(p).calls)
  {
  }

  lemma {:induction false} RunFile(env: Env, path: Text, k: KeyPath, t: KeyTree, erange: bool) returns (q: Parser)
    requires ProperPath(path, k) && ExportableTree(t) && ReadableTree(t, erange)
    ensures Run(env, Initial([HEADER_50] + (TreeLines(path, t) + [[], []]), erange), []) == q
    ensures !q.exited && Modern(q.version) && CloseCurrent(q).calls == TreeCalls(k, CanonTree(env, t))
  {
    hide Run, TreeLines, TreeCalls, CanonTree;
    var p := HeaderRead(env, TreeLines(path, t) + [[], []], erange);
    var p1 := RunTree(env, p, path, k, t, [[], []]);
    RunOut(env, p1);
    q := p1.(lines := [[]]);
  }

  /** Importing what was exported makes exactly the calls that write the canonical tree. */
  lemma {:induction false} ImportExportedLines(env: Env, path: Text, k: KeyPath, t: KeyTree, erange: bool)
    requires ProperPath(path, k) && ExportableTree(t) && ReadableTree(t, erange)
    ensures Import(env, FileLines(path, t), erange) == Returned(true, TreeCalls(k, CanonTree(env, t)))
  {
    var lines := FileLines(path, t);
    Associate([HEADER_50], TreeLines(path, t), [[], []]);
    var q := RunFile(env, path, k, t, erange);
    ImportResult(env, lines, erange);
  }

  /** The same for the file as the reader delivers it, however its text is cut into reads. */
  lemma {:induction false} ImportExported(env: Env, path: Text, k: KeyPath, t: KeyTree, erange: bool, chunks: seq<Text>)
    requires ProperPath(path, k) && ExportableTree(t) && ReadableTree(t, erange)
    requires ValidChunks(chunks) && Concat(chunks) == ExportFile(path, t)
    ensures Import(env, Lines(Reader(0, None, chunks)), erange) == Returned(true, TreeCalls(k, CanonTree(env, t)))
  {
    FileNulFree(path, t);
    ImportChunkIndependent(env, chunks, erange);
    FileSplits(path, t);
    ImportExportedLines(env, path, k, t, erange);
  }

  // -------------------------------------------------------------- exact identity

  /** The last complete code unit of the data is a terminator. */
  predicate LastWordZero(data: seq<Byte>) {
    EndsInNul(data, |data| / 2)
  }

  /** Values that come back unchanged: checkable on the value alone. */
  predicate WellTyped(v: Value) {
    if v.typ == REG_SZ then |v.data| % 2 == 0 && LastWordZero(v.data) && NulFree(StringUnits(v.data))
    else if v.typ == REG_DWORD then v.data == [] || |v.data| == 4
    else if StringType(v.typ) then v.data == [] || LastWordZero(v.data)
    else true
  }

  /** An even, non-empty byte string as its units but the last and the last unit. */
  lemma {:induction false} LastUnit(data: seq<Byte>)
    requires |data| % 2 == 0 && |data| > 0
    ensures var n := |data| - 2;
      && FromBytes(data) == FromBytes(data[..n]) + [Word(data[n], data[n + 1])]
      && StringUnits(data) == FromBytes(data[..n])
  {
    var n := |data| - 2;
    var last := data[n..];
    assert data == data[..n] + last && last[2..] == [];
    FromBytesConcat(data[..n], last);
  }

  lemma {:induction false} StringFixedOnly(data: seq<Byte>)
    requires |data| != 1 && ToBytes(CString(StringUnits(data)) + [NUL]) == data
    ensures |data| % 2 == 0 && LastWordZero(data) && NulFree(StringUnits(data))
  {
    var s := CString(StringUnits(data));
    ToBytesConcat(s, [NUL]);
    var zero: Text := [NUL];
    assert zero[1..] == [] && ToBytes(zero) == [0, 0];
    assert |data| == 2 * |s| + 2;
    assert s == StringUnits(data);
  }

  lemma {:induction false} StringFixedIf(data: seq<Byte>)
    requires |data| % 2 == 0 && LastWordZero(data) && NulFree(StringUnits(data))
    ensures ToBytes(CString(StringUnits(data)) + [NUL]) == data
  {
    hide ToBytes, FromBytes, StringUnits;
    LastUnitNul(data);
    ToFromBytes(data);
  }

  lemma {:induction false} LastUnitNul(data: seq<Byte>)
    requires |data| % 2 == 0 && LastWordZero(data)
    ensures FromBytes(data) == StringUnits(data) + [NUL]
  {
    hide FromBytes, StringUnits;
    LastUnit(data);
    var n := |data| - 2;
    assert n + 2 == 2 * (|data| / 2) && data[n] == 0 && data[n + 1] == 0;
  }

  lemma {:induction false} StringFixed(data: seq<Byte>)
    requires |data| != 1
    ensures ToBytes(CString(StringUnits(data)) + [NUL]) == data
      <==> |data| % 2 == 0 && LastWordZero(data) && NulFree(StringUnits(data))
  {
    if ToBytes(CString(StringUnits(data)) + [NUL]) == data { StringFixedOnly(data); }
    if |data| % 2 == 0 && LastWordZero(data) && NulFree(StringUnits(data)) { StringFixedIf(data); }
  }

  lemma {:induction false} TerminatedFixed(env: Env, data: seq<Byte>)
    requires |data| >= 2
    ensures Terminated(env, data) == data <==> LastWordZero(data)
  {
    if !LastWordZero(data) { NulWordStored(env, data, |data| / 2); }
  }

  /** A string stored without its terminator loses its last character: "A" comes back empty. */
  lemma {:induction false} ValueExample(env: Env, name: Text)
    requires NulFree(name)
    ensures var v := Value(name, REG_SZ, [65, 0]); Exportable(v) && Canon(env, v) == v.(data := [0, 0]) && Canon(env, v) != v
  {
    var v := Value(name, REG_SZ, [65, 0]);
    var none: Text := [];
    assert StringUnits(v.data) == none && CString(none) + [NUL] == [NUL];
    var zero: Text := [NUL];
    assert zero[1..] == [] && ToBytes(zero) == [0, 0];
  }

  /** A value survives in every environment exactly when it is well typed. */
  lemma {:induction false} ValueFixed(v: Value)
    requires Exportable(v)
    ensures (forall env :: Canon(env, v) == v) <==> WellTyped(v)
  {
    var bad := Env(1, 0, false);
    if v.typ == REG_SZ {
      StringFixed(v.data);
      assert Canon(bad, v) == v <==> WellTyped(v);
    } else if !AsHex(v) {
      assert Canon(bad, v) == v <==> WellTyped(v);
    } else if StringType(v.typ) && v.data != [] {
      if |v.data| == 1 {
        NulWordStored(bad, v.data, 0);
        assert Canon(bad, v) != v;
      } else {
        forall env ensures Canon(env, v) == v <==> WellTyped(v) { TerminatedFixed(env, v.data); }
        assert Canon(bad, v) == v <==> WellTyped(v);
      }
    }
  }

  predicate WellTypedTree(t: KeyTree)
    decreases t
  {
    (forall v :: v in t.values ==> WellTyped(v)) && forall s :: s in t.subkeys ==> WellTypedTree(s)
  }

  lemma {:induction false} ValuesFixed(env: Env, vs: seq<Value>)
    requires forall v :: v in vs ==> Exportable(v)
    requires forall v :: v in vs ==> WellTyped(v)
    ensures CanonValues(env, vs) == vs
  {
    if vs != [] {
      assert Exportable(vs[0]) && WellTyped(vs[0]);
      ValueFixed(vs[0]);
      assert Canon(env, vs[0]) == vs[0];
      ValuesFixed(env, vs[1..]);
    }
  }

  lemma {:induction false} TreeFixed(env: Env, t: KeyTree)
    requires ExportableTree(t) && WellTypedTree(t)
    ensures CanonTree(env, t) == t
    decreases t, 1
  {
    ValuesFixed(env, t.values);
    ForestFixed(env, t.subkeys);
  }

  lemma {:induction false} ForestFixed(env: Env, ts: seq<KeyTree>)
    requires forall t :: t in ts ==> ExportableTree(t)
    requires forall t :: t in ts ==> WellTypedTree(t)
    ensures CanonForest(env, ts) == ts
    decreases ts, 0
  {
    if ts != [] {
      TreeFixed(env, ts[0]);
      ForestFixed(env, ts[1..]);
    }
  }

  lemma {:induction false} TreeFixedOnly(t: KeyTree)
    requires ExportableTree(t) && Survives(t)
    ensures WellTypedTree(t)
    decreases t
  {
    forall v | v in t.values ensures WellTyped(v) {
      var i :| 0 <= i < |t.values| && t.values[i] == v;
      forall env ensures Canon(env, v) == v {
        assert CanonTree(env, t) == t;
        CanonValuesAt(env, t.values, i);
      }
      ValueFixed(v);
    }
    forall s | s in t.subkeys ensures WellTypedTree(s) {
      var i :| 0 <= i < |t.subkeys| && t.subkeys[i] == s;
      forall env ensures CanonTree(env, s) == s {
        assert CanonTree(env, t) == t;
        CanonForestAt(env, t.subkeys, i);
      }
      TreeFixedOnly(s);
    }
  }

  lemma {:induction false} CanonForestAt(env: Env, ts: seq<KeyTree>, i: nat)
    requires i < |ts| && forall t :: t in ts ==> ExportableTree(t)
    ensures CanonForest(env, ts)[i] == CanonTree(env, ts[i])
    decreases ts
  {
    if i > 0 { CanonForestAt(env, ts[1..], i - 1); }
  }

  lemma {:induction false} CanonUnambiguous(env: Env, t: KeyTree)
    requires ExportableTree(t) && Unambiguous(t)
    ensures Unambiguous(CanonTree(env, t))
    decreases t
  {
    var ts := t.subkeys;
    var canon := CanonForest(env, ts);
    forall s | s in canon ensures Unambiguous(s) {
      var i :| 0 <= i < |canon| && canon[i] == s;
      CanonForestAt(env, ts, i);
      assert ts[i] in ts;
      CanonUnambiguous(env, ts[i]);
    }
  }

  /**
   The round trip. For every exportable tree, however the file is read back and over
   any registry with no key yet at the exported path, the import succeeds, leaves
   every other key alone and puts exactly the canonical tree there; the tree itself
   comes back in every environment if and only if all its values are well typed.
   */
  lemma {:induction false} RoundTrip(env: Env, path: Text, k: KeyPath, t: KeyTree, erange: bool, chunks: seq<Text>, store: Store)
    requires ProperPath(path, k) && ExportableTree(t) && ReadableTree(t, erange) && Unambiguous(t)
    requires ValidChunks(chunks) && Concat(chunks) == ExportFile(path, t)
    requires Rooted(store) && NothingBelow(store, Id(k))
    ensures var r := Import(env, Lines(Reader(0, None, chunks)), erange);
      r.Returned? && r.ok && Apply(store, r.calls) == WithAncestors(store, k) + Snapshot(k, CanonTree(env, t))
    ensures Survives(t) <==> WellTypedTree(t)
  {
    ImportExported(env, path, k, t, erange, chunks);
    CanonUnambiguous(env, t);
    WriteTreeAnywhere(store, k, CanonTree(env, t));
    SurvivesExactly(t);
  }

  /** The tree comes back whatever the importer finds outside its own data. */
  ghost predicate Survives(t: KeyTree)
    requires ExportableTree(t)
  {
    forall env :: CanonTree(env, t) == t
  }

  lemma {:induction false} WellTypedSurvives(t: KeyTree)
    requires ExportableTree(t) && WellTypedTree(t)
    ensures Survives(t)
  {
    forall env ensures CanonTree(env, t) == t { TreeFixed(env, t); }
  }

  lemma {:induction false} SurvivesExactly(t: KeyTree)
    requires ExportableTree(t)
    ensures Survives(t) <==> WellTypedTree(t)
  {
    if WellTypedTree(t) { WellTypedSurvives(t); }
    if Survives(t) { TreeFixedOnly(t); }
  }

  // ------------------------------------------------------------------ file bytes

  /** What is on disk: the byte order mark and the text in little-endian order. */
  function FileBytes(text: Text): seq<Byte> {
    [0xFF, 0xFE] + ToBytes(text)
  }

  /** The importer's encoding check and its reads of whole code units; None for a file that is not Unicode. */
  function FileText(bytes: seq<Byte>): Option<Text> {
    if |bytes| >= 2 && bytes[0] == 0xFF && bytes[1] == 0xFE then Some(FromBytes(bytes[2..])) else None
  }

  lemma {:induction false} FileBytesBack(text: Text)
    ensures FileText(FileBytes(text)) == Some(text)
  {
    assert FileBytes(text)[2..] == ToBytes(text);
    FromToBytes(text);
  }
}
