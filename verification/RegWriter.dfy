/**
 The exporter as the program runs it: pieces of text written to a file one after the
 other, with loops over the values and the subkeys of each key.
 */
module RegWriter {
  import opened Basics
  import opened WideText
  import opened StringEscape
  import opened HexCodec
  import opened Registry
  import opened RegImport
  import opened RegExport

  class ExportFileWriter {
    /** The text after the byte order mark. */
    var file: Text

    constructor ()
      ensures file == []
    {
      file := [];
    }

    /** REGPROC_write_line */
    method WriteLine(t: Text)
      modifies this
      ensures file == old(file) + t
    {
      file := file + t;
    }

    /** export_value_name: also says how long the line has become. */
    method WriteValueName(name: Text) returns (lineLen: nat)
      modifies this
      ensures file == old(file) + ValueNameText(name) && lineLen == |ValueNameText(name)|
    {
      if name == [] {
        WriteLine([AT, EQUALS]);
        return 2;
      }
      var buf, n := EscapeString(name);
      WriteLine([QUOTE] + buf[..n] + [QUOTE, EQUALS]);
      return n + 3;
    }

    /** export_string_data: the last code unit, the terminator, is left off. */
    method WriteString(data: seq<Byte>)
      modifies this
      ensures file == old(file) + ([QUOTE] + Escape(StringUnits(data)) + [QUOTE])
    {
      var buf, n := EscapeString(StringUnits(data));
      WriteLine([QUOTE] + buf[..n] + [QUOTE]);
    }

    /** export_hex_data_type, which formats the tag into a buffer of 15 characters */
    method WriteHexType(typ: nat) returns (lineLen: nat)
      requires typ < UINT32
      modifies this
      ensures file == old(file) + HexTypeTag(typ) && lineLen == |HexTypeTag(typ)|
    {
      if typ == REG_BINARY {
        WriteLine(HEX_TAG);
        return |HEX_TAG|;
      }
      var buf := new WChar[15](_ => NUL);
      var tag := HexTypeTag(typ);
      TypeTagFits(typ);
      lineLen := |tag|;
      forall i | 0 <= i < lineLen { buf[i] := tag[i]; }
      buf[lineLen] := NUL;
      assert buf[..lineLen] == tag;
      WriteLine(buf[..lineLen]);
    }

    /** export_hex_data: the tag, then the wrapped bytes, whose last line is written by the caller in the source. */
    method WriteHex(typ: nat, lineLen: nat, data: seq<Byte>)
      requires typ < UINT32
      modifies this
      ensures file == old(file) + HexTypeTag(typ) + HexBody(data, lineLen + |HexTypeTag(typ)|)
    {
      hide HexBody, HexTypeTag;
      var tagLen := WriteHexType(typ);
      if data == [] {
        HexBodyNone(lineLen + tagLen);
        return;
      }
      var written, tail := ExportHexData(data, lineLen + tagLen);
      ghost var before := file;
      WriteLine(written);
      WriteLine(tail);
      Associate(before, written, tail);
    }

    /** A name, one piece of text for the data, and the end of the line. */
    method WriteSimple(name: Text, text: Text)
      modifies this
      ensures file == old(file) + (ValueNameText(name) + text + CRLF)
    {
      ghost var before := file;
      var _ := WriteValueName(name);
      WriteLine(text);
      WriteLine(CRLF);
      Pieces(before, ValueNameText(name), text, CRLF);
    }

    method WriteStringValue(name: Text, data: seq<Byte>)
      modifies this
      ensures file == old(file) + (ValueNameText(name) + ([QUOTE] + Escape(StringUnits(data)) + [QUOTE]) + CRLF)
    {
      ghost var before := file;
      var _ := WriteValueName(name);
      WriteString(data);
      WriteLine(CRLF);
      Pieces(before, ValueNameText(name), [QUOTE] + Escape(StringUnits(data)) + [QUOTE], CRLF);
    }

    method WriteHexValue(name: Text, typ: nat, data: seq<Byte>)
      requires typ < UINT32
      modifies this
      ensures var prefix := ValueNameText(name) + HexTypeTag(typ);
        file == old(file) + (prefix + HexBody(data, |prefix|) + CRLF)
    {
      ghost var before := file;
      var lineLen := WriteValueName(name);
      WriteHex(typ, lineLen, data);
      WriteLine(CRLF);
      HexPieces(before, ValueNameText(name), HexTypeTag(typ), HexBody(data, lineLen + |HexTypeTag(typ)|), CRLF);
    }

    /** export_data, with the bytes that lie behind the data in its buffer */
    method WriteValue(v: Value, behind: seq<Byte>)
      requires Given(v) && |behind| >= 3
      modifies this
      ensures file == old(file) + ExportValue(Seen(behind, v))
    {
      ValueText(Seen(behind, v));
      if v.typ == REG_SZ {
        WriteStringValue(v.name, v.data);
      } else if v.typ == REG_DWORD && v.data != [] {
        ReadsFour(v, behind);
        WriteSimple(v.name, DWORD_TAG + HexPadded(Dword(v.data + behind), 8));
      } else {
        WriteHexValue(v.name, v.typ, v.data);
      }
    }

    /** export_registry_data: the key, its values, then each subkey under its longer path. */
    method WriteTree(path: Text, t: KeyTree)
      requires ExportableTree(t)
      modifies this
      ensures file == old(file) + ExportTree(path, t)
      decreases t, 1
    {
      ghost var before := file;
      var head := CRLF + [LBRACKET] + path + [RBRACKET] + CRLF;
      WriteLine(head);
      WriteValues(t.values);
      WriteSubkeys(path, t.subkeys);
      Pieces(before, head, ExportValues(t.values), ExportForest(path, t.subkeys));
    }

    /** The loop over RegEnumValueW; what lies behind the data does not matter for these values. */
    method WriteValues(vs: seq<Value>)
      requires forall v :: v in vs ==> Exportable(v)
      modifies this
      ensures file == old(file) + ExportValues(vs)
    {
      var i := 0;
      ghost var goal := file + ExportValues(vs);
      assert vs[0..] == vs;
      while i < |vs|
        invariant 0 <= i <= |vs| && ValuesLeft(file, vs, i, goal)
      {
        ValuesStep(file, vs, i, goal);
        WriteValue(vs[i], [0, 0, 0]);
        i := i + 1;
      }
    }

    /** The loop over RegEnumKeyExW */
    method WriteSubkeys(path: Text, ts: seq<KeyTree>)
      requires forall t :: t in ts ==> ExportableTree(t)
      modifies this
      ensures file == old(file) + ExportForest(path, ts)
      decreases ts, 0
    {
      hide ExportTree, ExportableTree;
      var i := 0;
      assert ts[0..] == ts;
      while i < |ts|
        invariant 0 <= i <= |ts| && file + ExportForest(path, ts[i..]) == old(file) + ExportForest(path, ts)
      {
        ghost var before := file;
        assert ts[i] in ts && ts[i..][1..] == ts[i + 1..];
        var sub := SubkeyPath(path, ts[i].name);
        WriteTree(sub, ts[i]);
        assert before + (ExportTree(sub, ts[i]) + ExportForest(path, ts[i + 1..]))
            == before + ExportTree(sub, ts[i]) + ExportForest(path, ts[i + 1..]);
        i := i + 1;
      }
    }

    /** export_key */
    method WriteFile(path: Text, t: KeyTree)
      requires ExportableTree(t) && file == []
      modifies this
      ensures file == ExportFile(path, t)
    {
      WriteHeader();
      WriteTree(path, t);
      WriteLine(CRLF);
    }

    /** REGPROC_open_export_file */
    method WriteHeader()
      requires file == []
      modifies this
      ensures file == HEADER_50 + CRLF
    {
      WriteLine(HEADER_50 + CRLF);
    }
  }

  /** What is written and the values still to come make up the goal. */
  ghost predicate ValuesLeft(file: Text, vs: seq<Value>, i: nat, goal: Text)
    requires forall v :: v in vs ==> Exportable(v)
  {
    i <= |vs| && file + ExportValues(vs[i..]) == goal
  }

  lemma {:induction false} ValuesStep(file: Text, vs: seq<Value>, i: nat, goal: Text)
    requires (forall v :: v in vs ==> Exportable(v)) && i < |vs| && ValuesLeft(file, vs, i, goal)
    ensures vs[i] in vs && ValuesLeft(file + ExportValue(vs[i]), vs, i + 1, goal)
  {
    assert vs[i..][1..] == vs[i + 1..];
    Associate(file, ExportValue(vs[i]), ExportValues(vs[i + 1..]));
  }

  lemma {:induction false} HexPieces(a: Text, name: Text, tag: Text, body: Text, end: Text)
    ensures a + name + tag + body + end == a + (name + tag + body + end)
  {
  }

  lemma {:induction false} ValueText(v: Value)
    requires Exportable(v)
    ensures v.typ == REG_SZ ==>
      ExportValue(v) == ValueNameText(v.name) + ([QUOTE] + Escape(StringUnits(v.data)) + [QUOTE]) + CRLF
    ensures v.typ == REG_DWORD && v.data != [] ==>
      ExportValue(v) == ValueNameText(v.name) + (DWORD_TAG + HexPadded(Dword(v.data), 8)) + CRLF
    ensures AsHex(v) ==> ExportValue(v) == HexPrefix(v) + HexBody(v.data, |HexPrefix(v)|) + CRLF
  {
    var name := ValueNameText(v.name);
    if v.typ == REG_SZ {
      Quoted(name, Escape(StringUnits(v.data)));
    } else if !AsHex(v) {
      Associate(name, DWORD_TAG, HexPadded(Dword(v.data), 8));
    }
  }

  lemma {:induction false} ReadsFour(v: Value, behind: seq<Byte>)
    requires Given(v) && |behind| >= 3 && v.typ == REG_DWORD && v.data != []
    ensures Dword(v.data + behind) == Dword(Seen(behind, v).data)
  {
  }

  lemma {:induction false} Quoted(name: Text, text: Text)
    ensures name + [QUOTE] + text + [QUOTE] == name + ([QUOTE] + text + [QUOTE])
  {
  }

  lemma {:induction false} Pieces(a: Text, b: Text, c: Text, d: Text)
    ensures a + b + c + d == a + (b + c + d)
  {
  }
}
