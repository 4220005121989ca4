/**
 The registry-file exporter for Unicode files: the text it writes for a value, a key
 and a tree, and the same text as lines.
 */
module RegExport {
  import opened Basics
  import opened WideText
  import opened StringEscape
  import opened HexCodec
  import opened Registry
  import opened RegImport
  import opened LineReader

  // --------------------------------------------------------------------- values

  /** The exporter finds a whole DWORD, and the terminator of a string, in the data it is given. */
  predicate Exportable(v: Value) {
    && (v.typ == REG_SZ ==> |v.data| != 1)
    && (v.typ == REG_DWORD ==> v.data == [] || |v.data| >= 4)
    && v.typ < UINT32 && NulFree(v.name)
  }

  /** Values the exporter can be given: the length of a one-byte string would wrap around. */
  predicate Given(v: Value) {
    (v.typ == REG_SZ ==> |v.data| != 1) && v.typ < UINT32 && NulFree(v.name)
  }

  /** A value as the exporter sees it: a dword of one to three bytes goes on with what lies behind it in the buffer. */
  function Seen(behind: seq<Byte>, v: Value): (r: Value)
    requires Given(v) && |behind| >= 3
    ensures Exportable(r) && r.name == v.name && r.typ == v.typ && v.data <= r.data && (Exportable(v) ==> r == v)
  {
    if v.typ == REG_DWORD && 0 < |v.data| < 4 then v.(data := (v.data + behind)[..4]) else v
  }

  function ValueNameText(name: Text): Text {
    if name == [] then [AT, EQUALS] else [QUOTE] + Escape(name) + [QUOTE, EQUALS]
  }

  /** All code units of string data but the last, which should be the terminator. */
  function StringUnits(data: seq<Byte>): Text {
    if |data| < 2 then [] else FromBytes(data)[..|data| / 2 - 1]
  }

  function Dword(data: seq<Byte>): (n: nat)
    requires |data| >= 4
    ensures n < UINT32
  {
    data[0] as int + 256 * data[1] as int + 65536 * data[2] as int + 16777216 * data[3] as int
  }

  predicate AsHex(v: Value) {
    v.typ != REG_SZ && (v.typ != REG_DWORD || v.data == [])
  }

  function HexTypeTag(typ: nat): Text {
    if typ == REG_BINARY then HEX_TAG else HEX_TYPE_TAG + HexText(typ) + [RPAREN, COLON]
  }

  /** The tag with its terminator fits the 15 characters export_hex_data_type allocates. */
  lemma {:induction false} TypeTagFits(typ: nat)
    requires typ < UINT32
    ensures |HexTypeTag(typ)| + 1 <= 15
  {
    Pow16Eight();
    HexTextLength(typ, 8);
  }

  /** Everything on the first line of a value before its hex bytes. */
  function HexPrefix(v: Value): Text {
    ValueNameText(v.name) + HexTypeTag(v.typ)
  }

  /** export_data */
  function ExportValue(v: Value): Text
    requires Exportable(v)
  {
    if v.typ == REG_SZ then
      ValueNameText(v.name) + [QUOTE] + Escape(StringUnits(v.data)) + [QUOTE] + CRLF
    else if !AsHex(v) then
      ValueNameText(v.name) + DWORD_TAG + HexPadded(Dword(v.data), 8) + CRLF
    else
      HexPrefix(v) + HexBody(v.data, |HexPrefix(v)|) + CRLF
  }

  // --------------------------------------------------------------------- trees

  /** A key name that survives as one component of one line. */
  predicate PlainName(name: Text) {
    name != [] && NulFree(name) && OneLine(name) && BACKSLASH !in name
  }

  predicate ExportableTree(t: KeyTree)
    decreases t
  {
    && (forall v :: v in t.values ==> Exportable(v))
    && (forall s :: s in t.subkeys ==> PlainName(s.name) && ExportableTree(s))
  }

  function SubkeyPath(path: Text, name: Text): Text {
    path + [BACKSLASH] + name
  }

  function ExportValues(vs: seq<Value>): Text
    requires forall v :: v in vs ==> Exportable(v)
  {
    if vs == [] then [] else ExportValue(vs[0]) + ExportValues(vs[1..])
  }

  /** export_registry_data */
  function ExportTree(path: Text, t: KeyTree): Text
    requires ExportableTree(t)
    decreases t, 1
  {
    CRLF + [LBRACKET] + path + [RBRACKET] + CRLF + ExportValues(t.values) + ExportForest(path, t.subkeys)
  }

  function ExportForest(path: Text, ts: seq<KeyTree>): Text
    requires forall t :: t in ts ==> ExportableTree(t)
    decreases ts, 0
  {
    if ts == [] then [] else ExportTree(SubkeyPath(path, ts[0].name), ts[0]) + ExportForest(path, ts[1..])
  }

  /** export_key: the text after the byte order mark. */
  function ExportFile(path: Text, t: KeyTree): Text
    requires ExportableTree(t)
  {
    HEADER_50 + CRLF + ExportTree(path, t) + CRLF
  }

  // --------------------------------------------------------------------- lines

  function RowEnd(rows: seq<seq<Byte>>): Text
    requires rows != []
  {
    CsvText(rows[0]) + (if |rows| > 1 then [COMMA, BACKSLASH] else [])
  }

  function MoreRows(rows: seq<seq<Byte>>): seq<Text>
    requires rows != []
  {
    if |rows| == 1 then [] else [[SPACE, SPACE] + RowEnd(rows[1..])] + MoreRows(rows[1..])
  }

  function ValueLines(v: Value): seq<Text>
    requires Exportable(v)
  {
    if v.typ == REG_SZ then
      [ValueNameText(v.name) + [QUOTE] + Escape(StringUnits(v.data)) + [QUOTE]]
    else if !AsHex(v) then
      [ValueNameText(v.name) + DWORD_TAG + HexPadded(Dword(v.data), 8)]
    else if v.data == [] then
      [HexPrefix(v)]
    else
      var rows := HexRows(v.data, |HexPrefix(v)|);
      [HexPrefix(v) + RowEnd(rows)] + MoreRows(rows)
  }

  function ValuesLines(vs: seq<Value>): seq<Text>
    requires forall v :: v in vs ==> Exportable(v)
  {
    if vs == [] then [] else ValueLines(vs[0]) + ValuesLines(vs[1..])
  }

  function TreeLines(path: Text, t: KeyTree): seq<Text>
    requires ExportableTree(t)
    decreases t, 1
  {
    [[], [LBRACKET] + path + [RBRACKET]] + ValuesLines(t.values) + ForestLines(path, t.subkeys)
  }

  function ForestLines(path: Text, ts: seq<KeyTree>): seq<Text>
    requires forall t :: t in ts ==> ExportableTree(t)
    decreases ts, 0
  {
    if ts == [] then [] else TreeLines(SubkeyPath(path, ts[0].name), ts[0]) + ForestLines(path, ts[1..])
  }

  ghost predicate OneLiners(ls: seq<Text>) {
    forall i :: 0 <= i < |ls| ==> OneLine(ls[i]) && NulFree(ls[i])
  }

  lemma {:induction false} OneLinersConcat(a: seq<Text>, b: seq<Text>)
    requires OneLiners(a) && OneLiners(b)
    ensures OneLiners(a + b)
  {
  }

  lemma {:induction false} UnlinesOne(l: Text)
    ensures Unlines([l]) == l + CRLF
  {
    assert [l][1..] == [];
    assert Unlines([l]) == l + CRLF + [];
  }

  lemma {:induction false} RowsTextStep(prefix: Text, rows: seq<seq<Byte>>)
    requires |rows| > 1
    ensures prefix + RowsText(rows) + CRLF
      == (prefix + RowEnd(rows) + CRLF) + ([SPACE, SPACE] + RowsText(rows[1..]) + CRLF)
  {
  }

  /** The rows of hex data are the exporter's wrapped text cut at its line breaks. */
  lemma {:induction false} RowsUnlines(prefix: Text, rows: seq<seq<Byte>>)
    requires rows != []
    ensures prefix + RowsText(rows) + CRLF == Unlines([prefix + RowEnd(rows)] + MoreRows(rows))
    decreases rows
  {
    var first := prefix + RowEnd(rows);
    UnlinesOne(first);
    if |rows| == 1 {
      assert [first] + MoreRows(rows) == [first];
    } else {
      RowsUnlines([SPACE, SPACE], rows[1..]);
      UnlinesConcat([first], MoreRows(rows));
      RowsTextStep(prefix, rows);
    }
  }

  lemma {:induction false} RowEndOneLine(prefix: Text, rows: seq<seq<Byte>>)
    requires rows != [] && OneLine(prefix) && NulFree(prefix)
    ensures OneLiners([prefix + RowEnd(rows)])
  {
    CsvTextOneLine(rows[0]);
  }

  lemma {:induction false} RowsOneLiners(rows: seq<seq<Byte>>)
    requires rows != []
    ensures OneLiners(MoreRows(rows))
    decreases rows
  {
    if |rows| > 1 {
      RowEndOneLine([SPACE, SPACE], rows[1..]);
      RowsOneLiners(rows[1..]);
      OneLinersConcat([[SPACE, SPACE] + RowEnd(rows[1..])], MoreRows(rows[1..]));
    }
  }

  lemma {:induction false} ValueNameOneLine(name: Text)
    ensures OneLine(ValueNameText(name)) && NulFree(ValueNameText(name))
  {
    EscapeOneLine(name);
  }

  lemma {:induction false} AllHexOneLine(s: Text)
    requires AllHex(s)
    ensures OneLine(s) && NulFree(s)
  {
  }

  lemma {:induction false} HexPrefixOneLine(v: Value)
    ensures OneLine(HexPrefix(v)) && NulFree(HexPrefix(v))
  {
    hide ValueNameText, HexText;
    ValueNameOneLine(v.name);
    TagOneLine(v.typ);
    PlainConcat(ValueNameText(v.name), HexTypeTag(v.typ));
  }

  lemma {:induction false} PlainConcat(a: Text, b: Text)
    requires OneLine(a) && NulFree(a) && OneLine(b) && NulFree(b)
    ensures OneLine(a + b) && NulFree(a + b)
  {
  }

  lemma {:induction false} TagOneLine(typ: nat)
    ensures OneLine(HexTypeTag(typ)) && NulFree(HexTypeTag(typ))
  {
    hide HexText;
    WidePrintable("hex:");
    WidePrintable("hex(");
    AllHexOneLine(HexText(typ));
    PlainConcat(HEX_TYPE_TAG, HexText(typ));
    PlainConcat(HEX_TYPE_TAG + HexText(typ), [RPAREN, COLON]);
  }

  lemma {:induction false} HexValueUnlines(v: Value)
    requires Exportable(v) && AsHex(v) && v.data != []
    ensures ExportValue(v) == Unlines(ValueLines(v)) && OneLiners(ValueLines(v))
  {
    hide HexRows, HexBody, Unlines;
    HexPrefixOneLine(v);
    RowsOf(v.data, |HexPrefix(v)|);
    var rows := HexRows(v.data, |HexPrefix(v)|);
    RowsUnlines(HexPrefix(v), rows);
    RowEndOneLine(HexPrefix(v), rows);
    RowsOneLiners(rows);
    OneLinersConcat([HexPrefix(v) + RowEnd(rows)], MoreRows(rows));
  }

  lemma {:induction false} ValueUnlines(v: Value)
    requires Exportable(v)
    ensures ExportValue(v) == Unlines(ValueLines(v)) && OneLiners(ValueLines(v))
  {
    hide HexRows, HexBody, Escape, HexPadded;
    ValueNameOneLine(v.name);
    if v.typ == REG_SZ {
      EscapeOneLine(StringUnits(v.data));
      UnlinesOne(ValueLines(v)[0]);
    } else if !AsHex(v) {
      AllHexOneLine(HexPadded(Dword(v.data), 8));
      UnlinesOne(ValueLines(v)[0]);
    } else if v.data == [] {
      HexPrefixOneLine(v);
      UnlinesOne(HexPrefix(v));
      HexBodyNone(|HexPrefix(v)|);
      assert HexPrefix(v) + [] + CRLF == HexPrefix(v) + CRLF;
    } else {
      HexValueUnlines(v);
    }
  }

  /** What is written for any value is its lines, each ended by CRLF. */
  lemma {:induction false} SeenUnlines(behind: seq<Byte>, v: Value)
    requires Given(v) && |behind| >= 3
    ensures var r := Seen(behind, v); ExportValue(r) == Unlines(ValueLines(r)) && OneLiners(ValueLines(r))
  {
    hide ExportValue, ValueLines, Unlines;
    ValueUnlines(Seen(behind, v));
  }

  lemma {:induction false} ValuesUnlines(vs: seq<Value>)
    requires forall v :: v in vs ==> Exportable(v)
    ensures ExportValues(vs) == Unlines(ValuesLines(vs)) && OneLiners(ValuesLines(vs))
  {
    if vs != [] {
      ValueUnlines(vs[0]);
      ValuesUnlines(vs[1..]);
      UnlinesConcat(ValueLines(vs[0]), ValuesLines(vs[1..]));
      OneLinersConcat(ValueLines(vs[0]), ValuesLines(vs[1..]));
    }
  }

  lemma {:induction false} KeyHeadUnlines(path: Text)
    requires OneLine(path) && NulFree(path)
    ensures var head: seq<Text> := [[], [LBRACKET] + path + [RBRACKET]];
      Unlines(head) == CRLF + [LBRACKET] + path + [RBRACKET] + CRLF && OneLiners(head)
  {
    var l: Text := [LBRACKET] + path + [RBRACKET];
    var head: seq<Text> := [[], l];
    assert head == [[]] + [l];
    UnlinesConcat([[]], [l]);
    UnlinesOne([]);
    UnlinesOne(l);
    assert [] + CRLF == CRLF;
  }

  lemma {:induction false} TreeUnlines(path: Text, t: KeyTree)
    requires ExportableTree(t) && OneLine(path) && NulFree(path)
    ensures ExportTree(path, t) == Unlines(TreeLines(path, t)) && OneLiners(TreeLines(path, t))
    decreases t, 1
  {
    var head: seq<Text> := [[], [LBRACKET] + path + [RBRACKET]];
    var vals, subs := ValuesLines(t.values), ForestLines(path, t.subkeys);
    KeyHeadUnlines(path);
    ValuesUnlines(t.values);
    ForestUnlines(path, t.subkeys);
    UnlinesConcat(head, vals);
    UnlinesConcat(head + vals, subs);
    OneLinersConcat(head, vals);
    OneLinersConcat(head + vals, subs);
  }

  lemma {:induction false} ForestUnlines(path: Text, ts: seq<KeyTree>)
    requires forall t :: t in ts ==> ExportableTree(t) && PlainName(t.name)
    requires OneLine(path) && NulFree(path)
    ensures ExportForest(path, ts) == Unlines(ForestLines(path, ts)) && OneLiners(ForestLines(path, ts))
    decreases ts, 0
  {
    if ts != [] {
      assert PlainName(ts[0].name);
      var sub := SubkeyPath(path, ts[0].name);
      TreeUnlines(sub, ts[0]);
      ForestUnlines(path, ts[1..]);
      UnlinesConcat(TreeLines(sub, ts[0]), ForestLines(path, ts[1..]));
      OneLinersConcat(TreeLines(sub, ts[0]), ForestLines(path, ts[1..]));
    }
  }

  function FileLines(path: Text, t: KeyTree): seq<Text>
    requires ExportableTree(t)
  {
    [HEADER_50] + TreeLines(path, t) + [[], []]
  }

  lemma {:induction false} HeaderOneLine()
    ensures OneLine(HEADER_50) && NulFree(HEADER_50)
  {
    WidePrintable("Windows Registry Editor Version 5.00");
  }

  /** What the exporter writes, split into lines, is the lines above: no name or data breaks one. */
  lemma {:induction false} FileSplits(path: Text, t: KeyTree)
    requires ExportableTree(t) && OneLine(path) && NulFree(path)
    ensures SplitLines(ExportFile(path, t)) == FileLines(path, t)
  {
    hide Unlines, SplitLines, TreeLines;
    HeaderOneLine();
    TreeUnlines(path, t);
    var ls := [HEADER_50] + TreeLines(path, t);
    UnlinesConcat([HEADER_50], TreeLines(path, t));
    UnlinesConcat(ls, [[]]);
    UnlinesOne(HEADER_50);
    UnlinesOne([]);
    assert [] + CRLF == CRLF;
    OneLinersConcat([HEADER_50], TreeLines(path, t));
    OneLinersConcat(ls, [[]]);
    SplitUnlines(ls + [[]]);
    assert ls + [[]] + [[]] == FileLines(path, t);
  }

  lemma {:induction false} UnlinesNulFree(ls: seq<Text>)
    requires OneLiners(ls)
    ensures NulFree(Unlines(ls))
  {
    if ls != [] {
      UnlinesNulFree(ls[1..]);
    }
  }

  lemma {:induction false} FileNulFree(path: Text, t: KeyTree)
    requires ExportableTree(t) && OneLine(path) && NulFree(path)
    ensures NulFree(ExportFile(path, t))
  {
    HeaderOneLine();
    TreeUnlines(path, t);
    UnlinesNulFree(TreeLines(path, t));
  }

  // --------------------------------------------------------------------- examples

  lemma {:induction false} EscapePlain(c: WChar)
    requires c != NUL && !Special(c)
    ensures Escape([c]) == [c]
  {
    var one := [c];
    assert Escape(one) == EscapeChar(c) + Escape(one[1..]);
  }

  lemma {:induction false} PaddedExample()
    ensures HexPadded(0x12AB, 8) == [0x30, 0x30, 0x30, 0x30, 0x31, 0x32, 0x61, 0x62]
  {
    var zeros := HexPadded(0, 4);
    assert zeros == [0x30, 0x30, 0x30, 0x30] by {
      assert HexPadded(0, 1) == [] + [0x30] && HexPadded(0, 2) == HexPadded(0, 1) + [0x30] && HexPadded(0, 3) == HexPadded(0, 2) + [0x30];
      assert zeros == HexPadded(0, 3) + [0x30];
    }
    assert HexPadded(1, 5) == zeros + [0x31];
    assert HexPadded(0x12, 6) == HexPadded(1, 5) + [0x32];
    assert HexPadded(0x12A, 7) == HexPadded(0x12, 6) + [0x61];
    assert HexPadded(0x12AB, 8) == HexPadded(0x12A, 7) + [0x62];
  }

  /** The dword 0x12AB of name n: "n"=dword:000012ab */
  lemma {:induction false} DwordExample()
    ensures var v := Value([0x6E], REG_DWORD, [0xAB, 0x12, 0, 0]);
      Exportable(v) && ValueLines(v) ==
        [[0x22, 0x6E, 0x22, 0x3D] + Wide("dword:") + [0x30, 0x30, 0x30, 0x30, 0x31, 0x32, 0x61, 0x62]]
  {
    hide HexPadded, Escape;
    PaddedExample();
    EscapePlain(0x6E);
    assert ValueNameText([0x6E]) == [0x22, 0x6E, 0x22, 0x3D];
  }

  lemma {:induction false} RowExample(len: nat)
    requires len + 3 < MAX_HEX_CHARS
    ensures HexRows([1, 0xAB], len) == [[1, 0xAB]] && CsvText([1, 0xAB]) == [0x30, 0x31, 0x2C, 0x61, 0x62]
  {
    var data: seq<Byte> := [1, 0xAB];
    assert data[1..] == [0xAB];
    var more := HexRows(data[1..], len + 3);
    assert more == [data[1..]] && HexRows(data, len) == [[data[0]] + more[0]] + more[1..];
    assert [data[0]] + data[1..] == data && more[1..] == [];
    assert Hex2(1) == [0x30, 0x31] && Hex2(0xAB) == [0x61, 0x62];
    assert CsvText(data) == Hex2(1) + [COMMA] + CsvText(data[1..]);
  }

  /** The bytes 01 AB of name b: "b"=hex:01,ab and, with type 0x1F, "b"=hex(1f):01,ab */
  lemma {:induction false} BytesExample(v: Value)
    requires v.name == [0x62] && v.data == [1, 0xAB]
    ensures v.typ == REG_BINARY ==>
      ValueLines(v) == [[0x22, 0x62, 0x22, 0x3D] + Wide("hex:") + [0x30, 0x31, 0x2C, 0x61, 0x62]]
    ensures v.typ == 0x1F ==>
      ValueLines(v) == [[0x22, 0x62, 0x22, 0x3D] + (Wide("hex(") + [0x31, 0x66, 0x29, 0x3A]) + [0x30, 0x31, 0x2C, 0x61, 0x62]]
  {
    hide HexRows, Escape, CsvText;
    EscapePlain(0x62);
    assert ValueNameText([0x62]) == [0x22, 0x62, 0x22, 0x3D];
    assert HexText(0x1F) == HexText(1) + [0x66] && HexText(1) == [0x31];
    if v.typ == REG_BINARY || v.typ == 0x1F {
      assert |HexPrefix(v)| <= 12;
      RowExample(|HexPrefix(v)|);
      assert [HexPrefix(v) + RowEnd([v.data])] + MoreRows([v.data]) == [HexPrefix(v) + RowEnd([v.data])];
      assert RowEnd([v.data]) == CsvText(v.data);
    }
    assert HEX_TYPE_TAG + HexText(0x1F) + [RPAREN, COLON] == Wide("hex(") + [0x31, 0x66, 0x29, 0x3A];
  }

  /** A carriage return, a line feed, a backslash and a quote are written as \r, \n, \\ and \". */
  lemma {:induction false} EscapeExample()
    ensures Escape([13, 10, 0x5C, 0x22]) == [0x5C, 0x72] + [0x5C, 0x6E] + [0x5C, 0x5C] + [0x5C, 0x22]
  {
    var s: Text := [13, 10, 0x5C, 0x22];
    assert s[3..][1..] == [] && s[2..][1..] == s[3..] && s[1..][1..] == s[2..];
    assert Escape(s[3..]) == [0x5C, 0x22] + [];
    assert Escape(s[2..]) == [0x5C, 0x5C] + Escape(s[3..]);
    assert Escape(s[1..]) == [0x5C, 0x6E] + Escape(s[2..]);
    assert Escape(s) == [0x5C, 0x72] + Escape(s[1..]);
  }
}
