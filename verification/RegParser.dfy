/**
 The importer in its own form: the parser structure updated field by field, one method
 per state, working by index on the line in the reader's static buffer and writing into
 it: keys and digits are cut off with a NUL, strings unescaped where they stand. Every
 such write lies on the current line, so the text still to be read is never touched.
 */
module RegParser {
  import opened WideText
  import opened StringEscape
  import opened HexCodec
  import opened Registry
  import opened RegImport
  import opened RegSafety
  import opened RegStray
  import opened LineReader
  import opened LineText

  /** parser->data: NULL, an index into the line buffer, or the newest heap block. */
  datatype Pointer = NoData | InLine(index: nat) | InHeap(block: nat)

  function FreePointer(m: Memory, p: Pointer): Memory {
    match p
    case NoData => m
    case InLine(_) => m.(badFrees := m.badFrees + 1)
    case InHeap(b) => Free(m, Heap(b, []))
  }

  /** States that look at the text at the current position. */
  predicate Parses(s: State) {
    !ReadsLine(s) && s != SettingValue && s != UnknownData
  }

  /** Two states step over a character that brought the parser there. */
  predicate Anchored(s: State, t: Text) {
    s == DefaultValueName || s == DeletingValue ==> t != []
  }

  class ImportParser {
    const env: Env
    const reader: LineBuffer
    var state: State
    var version: Option<Version>
    var hkey: Option<KeyPath>
    var keyName: Option<Text>
    var valueName: Option<Text>
    var parseType: nat
    var dataType: nat
    var data: Pointer
    var dataSize: nat
    var backslash: bool
    var erange: bool
    var exited: bool
    var memory: Memory
    var calls: seq<Call>
    /** The bytes of the heap block and the two bytes of foreign memory behind it. */
    var heap: seq<Byte>
    /** What the reader will still deliver. */
    ghost var lines: seq<Text>
    /** The text `data` points at in the line, as long as that line is the current one. */
    ghost var borrowed: Option<Text>
    /** Where the current line's terminator stands; nothing behind it is written. */
    ghost var lineEnd: nat

    ghost function DataView(): Data
      reads this
    {
      match data
      case NoData => Null
      case InLine(_) => if borrowed.Some? then Line(borrowed.value) else Dangling
      case InHeap(b) => Heap(b, if dataSize <= |heap| then heap[..dataSize] else [])
    }

    ghost function View(): Parser
      reads this
    {
      Parser(state, version, hkey, keyName, valueName, parseType, dataType, DataView(), dataSize, backslash, erange,
             exited, memory, lines, calls)
    }

    /** The C string s stands at i on the current line. */
    ghost predicate At(i: nat, s: Text)
      reads this`lineEnd, reader, reader.buf
    {
      reader.size > 0 && StringAt(reader.buf, i, s) && i + |s| <= lineEnd
    }

    ghost predicate BufferOk()
      reads this`lineEnd, reader, reader.buf
    {
      && reader.Valid()
      && (reader.size > 0 ==> lineEnd < reader.buf.Length && (reader.next >= 0 ==> lineEnd < reader.next))
    }

    /** Behind the data the block holds what malloc left there. */
    ghost predicate HeapOk()
      reads this`data, this`dataSize, this`heap
    {
      data.InHeap? ==> dataSize + 2 <= |heap| && forall i :: dataSize <= i < |heap| ==> heap[i] == env.garbage
    }

    ghost predicate Refused()
      reads this`version
    {
      version == Some(Fuzzy) || version == Some(Invalid)
    }

    /** Unless the header was refused, `lines` is what the reader will still deliver. */
    ghost predicate Synced()
      requires BufferOk()
      reads this`version, this`lines, this`lineEnd, reader, reader.buf
    {
      !Refused() ==> lines == Lines(reader.State())
    }

    /** Heap data with room behind it until it is written; borrowed data still on its line. */
    ghost predicate DataOk()
      reads this`state, this`data, this`dataSize, this`heap, this`borrowed, this`lineEnd, reader, reader.buf
    {
      && (data.InHeap? ==> dataSize <= |heap|) && (state != SettingValue ==> HeapOk())
      && (data.InLine? && borrowed.Some? ==> At(data.index, borrowed.value))
    }

    ghost predicate Valid()
      reads this`state, this`version, this`lines, this`lineEnd, this`data, this`dataSize, this`heap, this`borrowed
      reads reader, reader.buf
    {
      BufferOk() && Synced() && DataOk()
    }

    constructor (r: LineBuffer, env: Env, errnoSet: bool)
      requires r.Valid() && r.size == 0
      ensures Valid() && reader == r && this.env == env && View() == Initial(Lines(r.State()), errnoSet)
    {
      reader, this.env := r, env;
      state, version, hkey, keyName, valueName := Header, None, None, None, None;
      parseType, dataType, data, dataSize, backslash := 0, 0, NoData, 0, false;
      erange, exited, memory, calls := errnoSet, false, Memory(0, {}, [], 0), [];
      heap, borrowed, lineEnd := [], None, 0;
      lines := Lines(r.State());
    }

    // ------------------------------------------------------------- the line buffer

    lemma {:induction false} Buffered()
      requires Valid()
      ensures BufferOk()
    {
    }

    lemma {:induction false} LineStands(start: nat, s: Text)
      requires reader.Valid() && reader.LineAt(start, s) && lineEnd == start + |s|
      ensures At(start, s) && BufferOk()
    {
      assert reader.buf[start..lineEnd] == s;
    }

    /** The reader's own call. */
    method Deliver() returns (start: int, ghost line: Option<Text>)
      requires reader.Valid() && lines == Lines(reader.State())
      modifies this`lines, this`lineEnd, reader, reader.buf
      ensures BufferOk() && lines == Lines(reader.State()) && (reader.buf == old(reader.buf) || fresh(reader.buf))
      ensures line.Some? ==> old(lines) != [] && line.value == old(lines)[0] && lines == old(lines)[1..]
      ensures line.None? ==> old(lines) == [] && lines == [[]]
      ensures if start >= 0 then line.Some? && At(start, line.value) else start == -1 && line.None? && reader.size == 0
    {
      hide ReadLine;
      LinesStep(reader.State());
      start, line := reader.GetLine();
      lines := Lines(reader.State());
      if start >= 0 {
        lineEnd := start + |line.value|;
        LineStands(start, line.value);
      }
    }

    /** get_line(parser->file): the index of the line, or -1 for NULL. No data points into the line before. */
    method NextLine() returns (start: int, ghost line: Option<Text>)
      requires Valid() && !Refused() && state != SettingValue && !data.InLine?
      modifies this`lines, this`lineEnd, reader, reader.buf
      ensures Valid() && (reader.buf == old(reader.buf) || fresh(reader.buf))
      ensures (View(), line) == RegImport.GetLine(old(View()))
      ensures if start >= 0 then line.Some? && At(start, line.value) else start == -1 && line.None? && reader.size == 0
    {
      ghost var p := View();
      start, line := Deliver();
      assert View() == p.(lines := lines) && !p.data.Line?;
    }

    /** p[k] = 0; on the current line */
    method CutAt(pos: nat, ghost t: Text, k: nat)
      requires Valid() && At(pos, t) && k <= |t| && !data.InLine?
      modifies reader.buf
      ensures Valid() && BufferOk() && At(pos, t[..k])
    {
      Cut(reader.buf, pos, t, k);
    }

    method TrimAt(pos: nat, ghost t: Text)
      requires Valid() && At(pos, t) && !data.InLine?
      modifies reader.buf
      ensures Valid() && BufferOk() && At(pos, TrimRight(t))
      ensures OnlyWithin(reader.buf, pos + |TrimRight(t)|, pos + |TrimRight(t)|)
    {
      TrimEnd(reader.buf, pos, t);
    }

    method DwordAt(pos: nat, ghost t: Text) returns (r: Option<nat>)
      requires Valid() && At(pos, t) && !data.InLine?
      modifies reader.buf
      ensures Valid() && r == ConvertDword(t)
    {
      r := LineText.ReadDword(reader.buf, pos, t);
    }

    /** REGPROC_unescape_string on the current line */
    method UnescapeAt(pos: nat, ghost t: Text) returns (ok: bool, rest: Option<nat>)
      requires Valid() && At(pos, t) && !data.InLine?
      modifies reader.buf
      ensures Valid() && BufferOk() && ok == Unescape(t).ok && (rest.Some? <==> Unescape(t).restKnown)
      ensures ok ==> At(pos, Unescape(t).text) && At(rest.value, Unescape(t).rest)
    {
      ok, rest := UnescapeInPlace(reader.buf, pos, t);
    }

    method SkipBlanksFrom(pos: nat, ghost t: Text) returns (p: nat)
      requires BufferOk() && At(pos, t)
      ensures At(p, SkipBlanks(t)) && pos <= p
    {
      p := SkipBlanksAt(reader.buf, pos, t);
    }

    method TextAt(pos: nat, ghost t: Text) returns (s: Text)
      requires BufferOk() && At(pos, t)
      ensures s == t
    {
      s := Fetch(reader.buf, pos, t);
    }

    /** *pos */
    method Peek(pos: nat, ghost t: Text) returns (c: WChar)
      requires BufferOk() && At(pos, t)
      ensures c == if t == [] then NUL else t[0]
      ensures c == NUL <==> t == []
    {
      if t != [] { CharAt(reader.buf, pos, t, 0); }
      c := reader.buf[pos];
    }

    lemma {:induction false} Advance(pos: nat, t: Text, k: nat)
      requires BufferOk() && At(pos, t) && k <= |t|
      ensures At(pos + k, t[k..])
    {
      SuffixAt(reader.buf, pos, t, k);
    }

    // -------------------------------------------------------------- keys and memory

    method CloseKey()
      modifies this`keyName, this`hkey, this`calls
      ensures View() == CloseCurrent(old(View()))
    {
      if hkey.Some? {
        keyName := None;
        calls := calls + [Registry.CloseKey(hkey.value)];
        hkey := None;
      }
    }

    method OpenKey(path: Text)
      modifies this`keyName, this`hkey, this`calls
      ensures View() == OpenNamed(old(View()), path)
    {
      CloseKey();
      var key := KeyNamed(path);
      if key.Some? {
        hkey := key;
        calls := calls + [CreateKey(key.value)];
        keyName := Some(path);
      }
    }

    method FreeParserData()
      modifies this`memory, this`data, this`dataSize
      ensures View() == FreeData(old(View())) && data == NoData
    {
      if parseType == REG_DWORD || parseType == REG_BINARY { memory := FreePointer(memory, data); }
      data := NoData;
      dataSize := 0;
    }

    /** realloc(parser->data, capacity + data_size): the data stays, the rest is what malloc finds. */
    method Reallocate(capacity: nat)
      requires HeapOk() && !data.InLine? && (data.NoData? ==> dataSize == 0)
      modifies this`memory, this`data, this`heap
      ensures Stored(old(HeapBytes(DataView())), []) && |heap| == dataSize + capacity + 2
      ensures (memory, data.block) == Alloc(Free(old(memory), old(DataView())))
    {
      var bytes := if data.InHeap? then heap[..dataSize] else [];
      var (m, block) := Alloc(FreePointer(memory, data));
      memory, data := m, InHeap(block);
      heap := bytes + seq(capacity + 2, _ => env.garbage);
      assert heap[..dataSize] == bytes == bytes + [];
    }

    /** The block holds `base` and, behind it, `got`. */
    ghost predicate Stored(base: seq<Byte>, got: seq<Byte>)
      reads this`data, this`dataSize, this`heap
    {
      HeapOk() && data.InHeap? && heap[..dataSize] == base + got && dataSize == |base| + |got|
    }

    /** *d++ = b; parser->data_size++; inside the block */
    method StoreByte(b: Byte, ghost base: seq<Byte>, ghost got: seq<Byte>)
      requires Stored(base, got) && |base| + |got| + 2 < |heap|
      modifies this`heap, this`dataSize
      ensures Stored(base, got + [b]) && |heap| == |old(heap)|
    {
      heap := heap[dataSize := b];
      dataSize := dataSize + 1;
      assert heap[..dataSize] == old(heap[..dataSize]) + [b] == base + (got + [b]);
    }

    /** data[len - 1] */
    method LastWord(len: nat) returns (w: WChar)
      requires HeapOk() && data.InHeap? && len == dataSize / 2
      ensures w != NUL <==> Unterminated(env, heap[..dataSize])
    {
      w := if len == 0 then env.stray else Word(heap[2 * len - 2], heap[2 * len - 1]);
    }

    /** data[len] = 0; as the two bytes of a word, perhaps over an odd byte */
    method StoreNulWord(len: nat)
      requires HeapOk() && data.InHeap? && len == dataSize / 2
      modifies this`heap, this`dataSize
      ensures |heap| == |old(heap)| && dataSize == old(dataSize) + 2 <= |heap|
      ensures heap[..dataSize] == WithNulWord(env, old(heap[..dataSize]))
    {
      ghost var was := heap[..dataSize];
      heap := heap[2 * len := 0];
      heap := heap[2 * len + 1 := 0];
      assert dataSize % 2 == 1 ==> heap[dataSize + 1] == env.garbage;
      dataSize := dataSize + 2;
      assert heap[..2 * len] == was[..2 * len];
    }

    /**
     prepare_hex_string_data: string data whose last complete word is not NUL gets one more
     word. The complete words before stay; an odd byte is overwritten by it.
     */
    method PrepareHexStringData()
      requires HeapOk() && data.InHeap?
      modifies this`heap, this`dataSize
      ensures View() == PrepareHexString(env, old(View())) && |heap| == |old(heap)| && dataSize <= |heap|
      ensures var before, words := old(heap[..dataSize]), old(dataSize) / 2;
        var gained := if StringType(dataType) && Unterminated(env, before) then 1 else 0;
        && before[..2 * words] <= heap[..dataSize] && dataSize == |before| + 2 * gained
        && (StringType(dataType) ==> (EndsInNul(heap[..dataSize], words + gained) <==> words > 0 || env.stray != NUL))
    {
      hide WithNulWord, EndsInNul, Unterminated;
      ghost var before := heap[..dataSize];
      if dataType == REG_EXPAND_SZ || dataType == REG_MULTI_SZ || dataType == REG_SZ {
        var len := dataSize / 2;
        var last := LastWord(len);
        if last != NUL { StoreNulWord(len); }
        assert heap[..dataSize] == Terminated(env, before);
        TerminatedWords(env, before, len);
      }
    }

    // ------------------------------------------------------------------ hex data

    /** wcstoul(s, &end, 16), and the character at end */
    method NumberAt(pos: nat, ghost t: Text) returns (num: Number, c: WChar)
      requires BufferOk() && At(pos, t)
      ensures num == Wcstoul(t) && At(pos + num.end, t[num.end..])
      ensures c == if num.end == |t| then NUL else t[num.end]
      ensures c == NUL <==> num.end == |t|
    {
      hide Wcstoul;
      var text := TextAt(pos, t);
      num := Wcstoul(text);
      Advance(pos, t, num.end);
      c := Peek(pos + num.end, t[num.end..]);
    }

    /** The round that ends the loop of convert_hex_csv_to_hex without storing a byte. */
    method WithoutByte(pos: nat, ghost t: Text) returns (ok: bool, next: nat)
      requires BufferOk() && At(pos, t) && !backslash
      modifies this`backslash
      ensures var e := SkipBlanks(t);
        && (backslash <==> [BACKSLASH] <= e) && (ok <==> backslash || [SEMICOLON] <= e)
        && (backslash ==> At(next, e[1..]))
    {
      hide SkipBlanks, At, BufferOk;
      next := SkipBlanksFrom(pos, t);
      ghost var e := SkipBlanks(t);
      var c := Peek(next, e);
      if c == BACKSLASH {
        backslash := true;
        Advance(next, e, 1);
        return true, next + 1;
      }
      ok := c == SEMICOLON;
    }

    /** The round that ends the loop of convert_hex_csv_to_hex. */
    method LastRound(pos: nat, ghost t: Text, num: Number, ghost base: seq<Byte>, ghost got: seq<Byte>)
      returns (ok: bool, next: nat)
      requires BufferOk() && Stored(base, got) && At(pos, t) && !backslash
      requires num == Wcstoul(t) && !CsvContinues(t, num) && At(pos + num.end, t[num.end..])
      requires |base| + |got| + |CsvLast(t, num).bytes| + 2 <= |heap|
      modifies this`heap, this`dataSize, this`backslash, this`erange
      ensures var c := CsvLast(t, num);
        && ok == c.ok && backslash == c.backslash && erange == (old(erange) || c.overflow)
        && Stored(base, got + c.bytes) && (backslash ==> At(next, c.rest))
    {
      hide Wcstoul, BufferOk, At, Stored;
      next := pos + num.end;
      erange := erange || num.overflow;
      assert got + [] == got;
      if num.value > 0xFF { return false, next; }
      if num.end == 0 {
        ok, next := WithoutByte(next, t[num.end..]);
        return;
      }
      StoreByte(num.value, base, got);
      next := SkipBlanksFrom(next, t[num.end..]);
      var c := Peek(next, SkipBlanks(t[num.end..]));
      ok := c == NUL || c == SEMICOLON;
    }

    /** What is still to be read, after the bytes already stored, makes up the list c. */
    ghost predicate Owes(got: seq<Byte>, t: Text, c: Csv) {
      c == (var d := DecodeCsv(t); d.(bytes := got + d.bytes))
    }

    lemma {:induction false} OwesAll(t: Text)
      ensures Owes([], t, DecodeCsv(t))
    {
    }

    lemma {:induction false} OwesLess(got: seq<Byte>, t: Text, num: Number, c: Csv)
      requires t != [] && num == Wcstoul(t) && CsvContinues(t, num) && Owes(got, t, c)
      ensures Owes(got + [num.value], AfterComma(t, num.end), c) && |got| < |c.bytes| && !num.overflow
    {
      var d := DecodeCsv(AfterComma(t, num.end));
      assert got + ([num.value] + d.bytes) == (got + [num.value]) + d.bytes;
    }

    lemma {:induction false} OwesLast(got: seq<Byte>, t: Text, num: Number, c: Csv)
      requires t != [] && num == Wcstoul(t) && !CsvContinues(t, num) && Owes(got, t, c)
      ensures var d := CsvLast(t, num); c == d.(bytes := got + d.bytes)
    {
    }

    lemma {:induction false} OwesNothing(got: seq<Byte>, c: Csv)
      requires Owes(got, [], c)
      ensures c == Csv(true, got, false, [], false)
    {
    }

    /** if (*end) end++; */
    method PastComma(pos: nat, ghost t: Text, end: nat, c: WChar) returns (next: nat)
      requires BufferOk() && At(pos, t) && end <= |t| && (c == NUL <==> end == |t|)
      ensures At(next, AfterComma(t, end))
    {
      if c == NUL {
        Advance(pos, t, end);
        next := pos + end;
      } else {
        Advance(pos, t, end + 1);
        next := pos + end + 1;
      }
    }

    /** The loop of convert_hex_csv_to_hex; every byte goes into the block. */
    method StoreCsv(pos: nat, ghost t: Text, ghost csv: Csv, ghost base: seq<Byte>) returns (ok: bool, next: nat)
      requires BufferOk() && Stored(base, []) && At(pos, t) && !backslash && csv == DecodeCsv(t)
      requires |base| + |csv.bytes| + 2 <= |heap|
      modifies this`heap, this`dataSize, this`backslash, this`erange
      ensures Stored(base, csv.bytes)
      ensures ok == csv.ok && backslash == csv.backslash && erange == (old(erange) || csv.overflow)
      ensures backslash ==> At(next, csv.rest)
    {
      hide Wcstoul, DecodeCsv, CsvLast, Owes, BufferOk, At, Stored;
      next := pos;
      ghost var s := t;
      ghost var got: seq<Byte> := [];
      OwesAll(t);
      var c := Peek(next, s);
      while c != NUL
        invariant BufferOk() && At(next, s) && Stored(base, got) && Owes(got, s, csv) && |heap| == |old(heap)|
        invariant (c == NUL <==> s == []) && !backslash && erange == old(erange)
        decreases |s|
      {
        var num, end := NumberAt(next, s);
        if num.value > 0xFF || num.end == 0 || (end != NUL && end != COMMA) {
          OwesLast(got, s, num, csv);
          ok, next := LastRound(next, s, num, base, got);
          return;
        }
        OwesLess(got, s, num, csv);
        StoreByte(num.value, base, got);
        next := PastComma(next, s, num.end, end);
        got, s := got + [num.value], AfterComma(s, num.end);
        c := Peek(next, s);
      }
      OwesNothing(got, csv);
      ok := true;
    }

    /** convert_hex_csv_to_hex: a block of one byte for every two characters, filled from the list. */
    method FillBlock(pos: nat, ghost t: Text, ghost c: Csv) returns (ok: bool, next: nat)
      requires BufferOk() && HeapOk() && At(pos, t) && !data.InLine? && (data.NoData? ==> dataSize == 0) && c == DecodeCsv(t)
      modifies this`memory, this`data, this`heap, this`dataSize, this`backslash, this`erange
      ensures Stored(old(HeapBytes(DataView())), c.bytes) && (memory, data.block) == Alloc(Free(old(memory), old(DataView())))
      ensures ok == c.ok && backslash == c.backslash && erange == (old(erange) || c.overflow)
      ensures backslash ==> At(next, c.rest)
    {
      hide Wcstoul, DecodeCsv;
      backslash := false;
      var len := Length(reader.buf, pos, t);
      CsvBytesBound(t);
      ghost var base := HeapBytes(DataView());
      Reallocate((len + 1) / 2);
      ok, next := StoreCsv(pos, t, c, base);
    }

    method ConvertHexCsv(pos: nat, ghost t: Text, ghost c: Csv) returns (ok: bool, next: nat)
      requires Valid() && state != SettingValue && At(pos, t) && !data.InLine? && (data.NoData? ==> dataSize == 0) && c == DecodeCsv(t)
      modifies this`memory, this`data, this`heap, this`dataSize, this`backslash, this`erange
      ensures Valid() && HeapOk() && data.InHeap? && View() == ConvertCsv(old(View()), c)
      ensures ok == c.ok && (backslash ==> At(next, c.rest))
    {
      hide DecodeCsv, Synced, BufferOk, At;
      ok, next := FillBlock(pos, t, c);
    }

    /** set_state */
    method SetState(s: State)
      requires Valid() && state != SettingValue
      modifies this`state
      ensures Valid() && View() == old(View()).(state := s)
    {
      hide Synced, BufferOk, At, HeapOk;
      state := s;
    }

    /** The data is complete: prepare_hex_string_data, then on to writing it. */
    method FinishHex()
      requires Valid() && state != SettingValue && data.InHeap?
      modifies this`state, this`heap, this`dataSize
      ensures Valid() && View() == PrepareHexString(env, old(View())).(state := SettingValue)
    {
      hide Synced, BufferOk, At, PrepareHexString;
      PrepareHexStringData();
      state := SettingValue;
    }

    /** In a state that looks at the text, the position is on the current line and t is the text there. */
    ghost predicate Ready(pos: nat, t: Text)
      reads this`state, this`lineEnd, reader, reader.buf
    {
      Parses(state) ==> At(pos, t) && Anchored(state, t)
    }

    lemma {:induction false} OnText(pos: nat, t: Text)
      requires At(pos, t) && Anchored(state, t)
      ensures Ready(pos, t)
    {
    }

    lemma {:induction false} TextThere(pos: nat, t: Text)
      requires Ready(pos, t) && Parses(state)
      ensures reader.size > 0
    {
    }

    lemma {:induction false} OffText(pos: nat, t: Text)
      requires !Parses(state)
      ensures Ready(pos, t)
    {
    }

    // -------------------------------------------------- states that read a line

    /** *pos, without the blanks before it */
    method FirstOf(start: nat, ghost line: Text) returns (p: nat, c: WChar)
      requires BufferOk() && At(start, line)
      ensures var s := SkipBlanks(line); At(p, s) && c == (if s == [] then NUL else s[0]) && (c == NUL <==> s == [])
    {
      p := SkipBlanksFrom(start, line);
      c := Peek(p, SkipBlanks(line));
    }

    /** parse_file_header */
    method HeaderVersion(start: nat, ghost line: Text) returns (v: Version)
      requires BufferOk() && At(start, line)
      ensures v == ParseFileHeader(line)
    {
      var p := SkipBlanksFrom(start, line);
      var text := TextAt(p, SkipBlanks(line));
      v := if text == HEADER_31 then V31 else if text == HEADER_40 then V40 else if text == HEADER_50 then V50
           else if HEADER_31 <= text then Fuzzy else Invalid;
    }

    method SetVersion(v: Version)
      requires Valid() && !Refused()
      modifies this`version
      ensures BufferOk() && View() == old(View()).(version := Some(v)) && (!Refused() ==> Valid())
    {
      hide Lines, BufferOk, DataOk;
      version := Some(v);
    }

    method TakeHeader(start: nat, ghost line: Text) returns (known: bool)
      requires Valid() && BufferOk() && state == Header && data.NoData? && At(start, line) && !Refused()
      modifies this`version, this`state
      ensures BufferOk() && (View(), if known then Some(line) else None) == HeaderFound(old(View()), line)
      ensures (known <==> !Refused()) && (known ==> !Parses(state) && Valid())
    {
      hide Valid, ParseFileHeader, At, BufferOk;
      var v := HeaderVersion(start, line);
      SetVersion(v);
      known := true;
      match v
      case V31 => SetState(Win31Line);
      case V40 => SetState(LineStart);
      case V50 => SetState(LineStart);
      case _ => known := false;
    }

    /** get_line(NULL) */
    method ResetReader()
      requires BufferOk() && Refused() && data.NoData?
      modifies reader`size
      ensures Valid() && reader.size == 0
    {
      reader.Release();
    }

    /** header_state; a header it does not know resets the reader. */
    method HeaderLine(ghost t: Text) returns (next: int, ghost u: Option<Text>)
      requires Valid() && state == Header && !Refused() && data.NoData?
      modifies this, reader, reader.buf
      ensures Valid() && (reader.buf == old(reader.buf) || fresh(reader.buf))
      ensures (View(), u) == HeaderState(old(View()), t)
      ensures if next >= 0 then u.Some? && Ready(next, u.value) else next == -1 && u.None? && reader.size == 0
    {
      hide Valid, BufferOk, HeaderFound, At, Ready;
      next, u := NextLine();
      if next == -1 { return; }
      Buffered();
      var known := TakeHeader(next, u.value);
      if !known {
        ResetReader();
        next, u := -1, None;
      } else {
        OffText(next, u.value);
      }
    }

    /** if (*p == c) p++; */
    method Skip(pos: nat, ghost t: Text, c: WChar) returns (p: nat)
      requires BufferOk() && At(pos, t) && c != NUL
      ensures At(p, if [c] <= t then t[1..] else t) && pos <= p
    {
      var d := Peek(pos, t);
      p := pos;
      if d == c {
        Advance(pos, t, 1);
        p := pos + 1;
      }
    }

    /** The value of a Windows 3.1 line, behind the blank that ends its key name. */
    method EntryValue(start: nat, ghost rest: Text) returns (value: nat)
      requires BufferOk() && At(start, rest) && (rest == [] || IsSpace(rest[0]))
      ensures if rest == [] || !IsBlank(rest[0]) then value == start else value > start && At(value, Win31Value(rest))
    {
      hide StringAt;
      var c := Peek(start, rest);
      if !IsBlank(c) { return start; }
      Advance(start, rest, 1);
      var p := SkipBlanksFrom(start + 1, rest[1..]);
      ghost var s := SkipBlanks(rest);
      var q := Skip(p, s, EQUALS);
      value := Skip(q, if [EQUALS] <= s then s[1..] else s, SPACE);
    }

    /** line[key_end] = 0; which is also the end of a value that starts there */
    method CutName(start: nat, ghost line: Text, n: nat, value: nat, ghost v: Text)
      requires Valid() && !data.InLine? && At(start, line) && n <= |line| && start + n <= value
      requires value > start + n ==> At(value, v)
      modifies reader.buf
      ensures Valid() && At(start, line[..n]) && At(value, if value > start + n then v else [])
    {
      Cut(reader.buf, start, line, n);
      if value > start + n { assert reader.buf[value..value + |v|] == v; }
    }

    /** parser->data = p; with its size in bytes, ready to be written */
    method Borrow(p: nat, ghost t: Text)
      requires Valid() && At(p, t)
      modifies this`state, this`data, this`dataSize, this`borrowed
      ensures Valid() && View() == old(View()).(data := Line(t), dataSize := 2 * (|t| + 1), state := SettingValue)
    {
      hide Synced, BufferOk, StringAt;
      var len := Length(reader.buf, p, t);
      data := InLine(p);
      dataSize := 2 * (len + 1);
      state := SettingValue;
      borrowed := Some(t);
    }

    method TakeEntry(value: nat, ghost v: Text)
      requires Valid() && At(value, v)
      modifies this`state, this`valueName, this`dataType, this`data, this`dataSize, this`borrowed
      ensures Valid() && View() == old(View()).(valueName := None, dataType := REG_SZ, data := Line(v),
                                                dataSize := 2 * (|v| + 1), state := SettingValue)
    {
      hide Valid, At;
      valueName := None;
      dataType := REG_SZ;
      Borrow(value, v);
    }

    method NameAndValue(start: nat, ghost line: Text) returns (value: nat, name: Text, ghost v: Text)
      requires Valid() && !data.InLine? && At(start, line)
      modifies reader.buf
      ensures var n := WordRun(line); Valid() && name == line[..n] && v == Win31Value(line[n..]) && At(value, v)
    {
      hide StringAt;
      var n := WordEnd(reader.buf, start, line);
      Advance(start, line, n);
      value := EntryValue(start + n, line[n..]);
      v := Win31Value(line[n..]);
      CutName(start, line, n, value, v);
      name := TextAt(start, line[..n]);
    }

    method OpenEntry(start: nat, ghost line: Text) returns (next: nat, ghost u: Text)
      requires Valid() && state == Win31Line && data.NoData? && At(start, line)
      modifies this, reader.buf
      ensures Valid() && (View(), Some(u)) == Win31Entry(old(View()), line) && !Parses(state)
    {
      hide Win31Value, OpenNamed, Synced, BufferOk;
      var name;
      next, name, u := NameAndValue(start, line);
      OpenKey(name);
      if hkey.None? { return start, name; }
      TakeEntry(next, u);
    }

    method Win31(ghost t: Text) returns (next: int, ghost u: Option<Text>)
      requires Valid() && state == Win31Line && !Refused() && data.NoData?
      modifies this, reader, reader.buf
      ensures Valid() && (reader.buf == old(reader.buf) || fresh(reader.buf))
      ensures (View(), u) == Win31LineState(old(View()), t)
      ensures if next >= 0 then u.Some? && Ready(next, u.value) else next == -1 && u.None? && reader.size == 0
    {
      hide Lines, Win31Entry;
      next, u := NextLine();
      if next == -1 { return; }
      ClassesRootPlain();
      var named := StartsWith(reader.buf, next, u.value, CLASSES_ROOT);
      if named {
        ghost var text;
        next, text := OpenEntry(next, u.value);
        u := Some(text);
      }
    }

    /** The character a line starts with, blanks aside, decides. */
    method Classify(p: nat, c: WChar, ghost s: Text) returns (next: nat, ghost u: Text)
      requires Valid() && state == LineStart && data.NoData? && At(p, s)
      requires c == (if s == [] then NUL else s[0]) && (c == NUL <==> s == [])
      modifies this`state
      ensures Valid() && (View(), Some(u)) == ClassifyLine(old(View()), s) && At(next, u) && Anchored(state, u)
    {
      hide Synced, BufferOk, At;
      next, u := p, s;
      if c == LBRACKET {
        state := KeyName;
      } else if c == QUOTE {
        state := QuotedValueName;
      } else if c == AT {
        state := DefaultValueName;
      }
      if c == LBRACKET || c == QUOTE {
        Advance(p, s, 1);
        next, u := p + 1, s[1..];
      }
    }

    method StartLine(ghost t: Text) returns (next: int, ghost u: Option<Text>)
      requires Valid() && state == LineStart && !Refused() && data.NoData?
      modifies this, reader, reader.buf
      ensures Valid() && (reader.buf == old(reader.buf) || fresh(reader.buf))
      ensures (View(), u) == LineStartState(old(View()), t)
      ensures if next >= 0 then u.Some? && Ready(next, u.value)
              else next == -1 && u.None? && reader.size == 0
    {
      hide Valid, BufferOk, At, ClassifyLine, SkipBlanks;
      next, u := NextLine();
      if next == -1 { return; }
      Buffered();
      var p, c := FirstOf(next, u.value);
      ghost var text;
      next, text := Classify(p, c, SkipBlanks(u.value));
      u := Some(text);
    }

    method ContinueWith(p: nat, c: WChar, ghost s: Text)
      requires Valid() && state == HexMultiline && data.InHeap? && At(p, s)
      requires c == (if s == [] then NUL else s[0]) && (c == NUL <==> s == [])
      modifies this`state, this`memory, this`data, this`dataSize
      ensures Valid() && (View(), Some(s)) == ContinueLine(old(View()), s) && At(p, s)
      ensures state == HexMultiline || state == HexData || state == LineStart
    {
      hide Synced, BufferOk, At;
      if c == NUL || c == SEMICOLON { return; }
      if IsHex(c) {
        state := HexData;
      } else {
        FreeParserData();
        state := LineStart;
      }
    }

    /** At the end of the file the position that came in goes back, though its line is gone. */
    method ContinueHex(pos: nat, ghost t: Text) returns (next: nat, ghost u: Text)
      requires Valid() && state == HexMultiline && !Refused() && data.InHeap?
      modifies this, reader, reader.buf
      ensures Valid() && (reader.buf == old(reader.buf) || fresh(reader.buf))
      ensures (View(), Some(u)) == HexMultilineState(env, old(View()), t)
      ensures Ready(next, u)
    {
      hide Valid, BufferOk, At, ContinueLine, PrepareHexString, SkipBlanks;
      var start, line := NextLine();
      if start == -1 {
        FinishHex();
        return pos, [];
      }
      Buffered();
      var p, c := FirstOf(start, line.value);
      next, u := p, SkipBlanks(line.value);
      ContinueWith(p, c, u);
    }

    // ----------------------------------------- states that work on the current line

    /** The key name between the brackets, cut off at the last one. */
    method NamedKey(pos: nat, ghost name: Text) returns (next: nat, ghost u: Text)
      requires Valid() && state == KeyName && data.NoData? && At(pos, name)
      modifies this`state, this`hkey, this`keyName, this`calls
      ensures Valid() && (View(), Some(u)) == KeyFound(old(View()), name) && Ready(next, u)
      ensures state == DeleteKey || state == LineStart
    {
      hide Valid, BufferOk, At, OpenNamed;
      Buffered();
      next, u := pos, name;
      var c := Peek(pos, name);
      if c == MINUS {
        Advance(pos, name, 1);
        SetState(DeleteKey);
        return pos + 1, name[1..];
      }
      var path := TextAt(pos, name);
      OpenKey(path);
      SetState(LineStart);
    }

    /** wcsrchr(p, ']') */
    method Bracket(pos: nat, ghost t: Text) returns (end: nat, found: bool)
      requires BufferOk() && At(pos, t)
      ensures end == LastBracket(t) && (found <==> end < |t|)
    {
      end := FindLastBracket(reader.buf, pos, t);
      if end < |t| { CharAt(reader.buf, pos, t, end); }
      found := reader.buf[pos + end] != NUL;
    }

    /** key_name_state */
    method ReadKeyName(pos: nat, ghost t: Text) returns (next: nat, ghost u: Text)
      requires Valid() && state == KeyName && data.NoData? && At(pos, t)
      modifies this`state, this`hkey, this`keyName, this`calls, reader.buf
      ensures Valid() && (View(), Some(u)) == KeyNameState(old(View()), t) && Ready(next, u)
    {
      hide Valid, KeyFound, BufferOk, At, Ready;
      Buffered();
      next, u := pos, t;
      var c := Peek(pos, t);
      var end, found := Bracket(pos, t);
      if IsBlank(c) || !found {
        SetState(LineStart);
        OffText(pos, t);
        return;
      }
      CutAt(pos, t, end);
      next, u := NamedKey(pos, t[..end]);
    }

    /** delete_registry_key, which exits on a key it cannot name. */
    method RemoveNamed(path: Text) returns (stays: bool)
      requires Valid() && state != SettingValue
      modifies this`exited, this`calls, this`state
      ensures Valid() && (View(), if stays then Some(path) else None) == DeleteNamed(old(View()), path)
      ensures if stays then state == LineStart else exited
    {
      hide KeyNamed, ParseKeyName, Valid;
      var (hive, sub) := ParseKeyName(path);
      if hive.None? || sub.None? || sub.value == [] {
        exited := true;
        return false;
      }
      var key := KeyNamed(path);
      if key.Some? { calls := calls + [DeleteTree(key.value)]; }
      SetState(LineStart);
      stays := true;
    }

    /** delete_key_state */
    method RemoveKey(pos: nat, ghost t: Text) returns (next: int, ghost u: Option<Text>)
      requires Valid() && state == DeleteKey && data.NoData? && At(pos, t)
      modifies this`state, this`hkey, this`keyName, this`calls, this`exited
      ensures Valid() && (View(), u) == DeleteKeyState(old(View()), t)
      ensures if next >= 0 then u.Some? && Ready(next, u.value) else next == -1 && u.None? && exited
    {
      hide Valid, BufferOk, At, DeleteNamed, CloseCurrent;
      Buffered();
      CloseKey();
      next, u := pos, Some(t);
      var c := Peek(pos, t);
      if c == UPPER_H || c == LOWER_H {
        var path := TextAt(pos, t);
        var stays := RemoveNamed(path);
        if !stays { next, u := -1, None; }
      } else {
        SetState(LineStart);
      }
    }

    /** default_value_name_state */
    method DefaultName(pos: nat, ghost t: Text) returns (next: nat, ghost u: Text)
      requires Valid() && state == DefaultValueName && data.NoData? && At(pos, t) && t != []
      modifies this`state, this`valueName
      ensures Valid() && (View(), Some(u)) == DefaultValueNameState(old(View()), t) && Ready(next, u)
    {
      hide Valid, BufferOk, At, Ready;
      Buffered();
      valueName := None;
      SetState(DataStart);
      Advance(pos, t, 1);
      OnText(pos + 1, t[1..]);
      return pos + 1, t[1..];
    }

    /** quoted_value_name_state: the name is unescaped where it stands, then copied. */
    method QuotedName(pos: nat, ghost t: Text) returns (next: nat, ghost u: Text)
      requires Valid() && state == QuotedValueName && data.NoData? && At(pos, t)
      modifies this`state, this`valueName, reader.buf
      ensures Valid() && (View(), Some(u)) == QuotedValueNameState(old(View()), t) && Ready(next, u)
    {
      hide Valid, BufferOk, At, Ready, Unescape;
      valueName := None;
      var ok, rest := UnescapeAt(pos, t);
      if !ok {
        SetState(LineStart);
        OffText(pos, Unescape(t).text);
        return pos, Unescape(t).text;
      }
      var name := TextAt(pos, Unescape(t).text);
      valueName := Some(name);
      SetState(DataStart);
      OnText(rest.value, Unescape(t).rest);
      return rest.value, Unescape(t).rest;
    }

    /** data_start_state: blanks around the data go, those behind it by a NUL written over them. */
    method StartData(pos: nat, ghost t: Text) returns (next: nat, ghost u: Text)
      requires Valid() && state == DataStart && data.NoData? && At(pos, t)
      modifies this`state, reader.buf
      ensures Valid() && (View(), Some(u)) == DataStartState(old(View()), t)
      ensures Ready(next, u)
    {
      hide Valid, BufferOk, At, Ready, SkipBlanks, TrimRight;
      Buffered();
      var p, c := FirstOf(pos, t);
      ghost var s := SkipBlanks(t);
      if c != EQUALS {
        SetState(LineStart);
        OffText(p, s);
        return p, s;
      }
      Advance(p, s, 1);
      next := SkipBlanksFrom(p + 1, s[1..]);
      TrimAt(next, SkipBlanks(s[1..]));
      u := TrimRight(SkipBlanks(s[1..]));
      c := Peek(next, u);
      SetState(if c == MINUS then DeletingValue else DataType);
      OnText(next, u);
    }

    /** delete_value_state */
    method RemoveValue(pos: nat, ghost t: Text) returns (next: nat, ghost u: Text)
      requires Valid() && state == DeletingValue && data.NoData? && At(pos, t) && t != []
      modifies this`state, this`calls
      ensures Valid() && (View(), Some(u)) == DeleteValueState(old(View()), t) && Ready(next, u)
    {
      hide Valid, BufferOk, At;
      Buffered();
      Advance(pos, t, 1);
      var c;
      next, c := FirstOf(pos + 1, t[1..]);
      u := SkipBlanks(t[1..]);
      if c == NUL || c == SEMICOLON {
        calls := calls + [DeleteValue(hkey, NameOf(valueName))];
      }
      SetState(LineStart);
    }

    /** The tag test of parse_data_type; the position moves behind the tag. */
    method Tagged(pos: nat, ghost t: Text, tag: Text) returns (yes: bool, next: nat)
      requires BufferOk() && At(pos, t) && NulFree(tag)
      ensures yes <==> tag <= t
      ensures if yes then At(next, t[|tag|..]) else next == pos
    {
      yes := StartsWith(reader.buf, pos, t, tag);
      next := pos;
      if yes {
        Advance(pos, t, |tag|);
        next := pos + |tag|;
      }
    }

    /** What a tag of parse_data_type decides. */
    method SetTypes(parse: nat, typ: nat, s: State)
      requires Valid() && state != SettingValue
      modifies this`parseType, this`dataType, this`state
      ensures Valid() && View() == old(View()).(parseType := parse, dataType := typ, state := s)
    {
      hide Valid;
      parseType, dataType := parse, typ;
      SetState(s);
    }

    /** wcstoul on the number of "hex(<number>):", and the position behind it */
    method NumberedType(pos: nat, ghost t: Text, e: bool) returns (typ: Option<nat>, erange: bool, next: nat)
      requires BufferOk() && At(pos, t)
      ensures var (r, e') := ParseHexType(t, e);
        && erange == e' && (typ.Some? <==> r.Some?)
        && (r.Some? ==> typ.value == r.value.0 && At(next, r.value.1))
    {
      hide BufferOk, At, ParseHexType;
      var text := TextAt(pos, t);
      var (r, e') := ParseHexType(text, e);
      typ, erange, next := None, e', pos;
      if r.Some? {
        ParseHexTypeRest(text, e);
        var k := |text| - |r.value.1|;
        Advance(pos, t, k);
        typ, next := Some(r.value.0), pos + k;
      }
    }

    method TakeType(typ: Option<nat>, e: bool)
      requires Valid() && state != SettingValue
      modifies this`state, this`dataType, this`erange
      ensures Valid() && View() == if typ.None? then old(View()).(erange := e, state := LineStart)
                                   else old(View()).(erange := e, dataType := typ.value, state := HexData)
    {
      hide Valid;
      erange := e;
      if typ.None? {
        SetState(LineStart);
      } else {
        dataType := typ.value;
        SetState(HexData);
      }
    }

    /** hex(<number>): the type follows the number. */
    method ReadHexType(pos: nat, ghost t: Text) returns (next: nat, ghost u: Text)
      requires Valid() && state == DataType && data.NoData? && At(pos, t)
      modifies this`state, this`dataType, this`erange
      ensures Valid() && (View(), Some(u)) == HexTypeState(old(View()), t)
      ensures Ready(next, u)
      ensures state == HexData || state == LineStart
    {
      hide Valid, BufferOk, At, ParseHexType;
      Buffered();
      ghost var r := ParseHexType(t, erange).0;
      u := if r.Some? then r.value.1 else t;
      var typ, e;
      typ, e, next := NumberedType(pos, t, erange);
      TakeType(typ, e);
    }

    /** data_type_state, with the tags in the order of the table */
    method ReadDataType(pos: nat, ghost t: Text) returns (next: nat, ghost u: Text)
      requires Valid() && state == DataType && data.NoData? && At(pos, t)
      modifies this`state, this`parseType, this`dataType, this`erange
      ensures Valid() && (View(), Some(u)) == DataTypeState(old(View()), t)
      ensures Ready(next, u)
    {
      hide Valid, BufferOk, At, Ready, HexTypeState;
      Buffered();
      TagsPlain();
      var yes;
      yes, next := Tagged(pos, t, [QUOTE]);
      if yes {
        SetTypes(REG_SZ, REG_SZ, StringData);
        OnText(next, t[1..]);
        return next, t[1..];
      }
      yes, next := Tagged(pos, t, HEX_TAG);
      if yes {
        SetTypes(REG_BINARY, REG_BINARY, HexData);
        OnText(next, t[4..]);
        return next, t[4..];
      }
      yes, next := Tagged(pos, t, DWORD_TAG);
      if yes {
        SetTypes(REG_DWORD, REG_DWORD, DwordData);
        OnText(next, t[6..]);
        return next, t[6..];
      }
      yes, next := Tagged(pos, t, HEX_TYPE_TAG);
      if yes {
        SetTypes(REG_BINARY, REG_BINARY, DataType);
        next, u := ReadHexType(next, t[4..]);
        return;
      }
      SetState(LineStart);
      OffText(pos, t);
      return pos, t;
    }

    /** The data is freed, and another state follows. */
    method Discard(s: State)
      requires Valid()
      modifies this`state, this`data, this`dataSize, this`memory
      ensures Valid() && View() == FreeData(old(View())).(state := s) && data == NoData
    {
      hide Synced, BufferOk, At;
      FreeParserData();
      state := s;
    }

    /**
     string_data_state: the string is unescaped where it stands and stays there until it is written.
     When unescaping has not set the pointer behind it, what the state returns is whatever was there.
     */
    method ReadString(pos: nat, ghost t: Text) returns (next: int, ghost u: Option<Text>)
      requires Valid() && state == StringData && data.NoData? && parseType == REG_SZ && At(pos, t)
      modifies this`state, this`data, this`dataSize, this`memory, this`borrowed, reader.buf
      ensures Valid() && (View(), u) == StringDataState(env, old(View()), t)
      ensures if next >= 0 then u.Some? && Ready(next, u.value) else next == -1 && u.None? && StrayEnd(env, old(View()), t)
    {
      hide Valid, BufferOk, At, Unescape;
      var ok, rest := UnescapeAt(pos, t);
      u := Some(SkipBlanks(Unescape(t).rest));
      next := pos;
      if ok {
        var c;
        next, c := FirstOf(rest.value, Unescape(t).rest);
        if c == NUL || c == SEMICOLON {
          Borrow(pos, Unescape(t).text);
          return;
        }
      } else if rest.None? && env.strayNull {
        next, u := -1, None;
      }
      Discard(LineStart);
    }

    /** malloc(sizeof(DWORD)) */
    method AllocateDword()
      requires Valid() && state == DwordData && data.NoData? && dataSize == 0
      modifies this`memory, this`data, this`heap
      ensures Valid() && data.InHeap? && |heap| == 6
      ensures var (m, block) := Alloc(old(memory)); View() == old(View()).(memory := m, data := Heap(block, []))
    {
      hide Synced, BufferOk, At;
      var (m, block) := Alloc(memory);
      memory, data := m, InHeap(block);
      heap := seq(6, _ => env.garbage);
    }

    /** *dw = n; and parser->data_size = sizeof(DWORD); */
    method StoreDword(n: nat)
      requires Valid() && state == DwordData && data.InHeap? && dataSize == 0 && |heap| == 6 && n < UINT32
      modifies this`heap, this`dataSize
      ensures Valid() && View() == old(View()).(data := Heap(data.block, Little(n)), dataSize := 4)
    {
      hide Synced, BufferOk, At, Little;
      heap := Little(n) + heap[4..];
      dataSize := 4;
      assert heap[..4] == Little(n);
    }

    /** dword_data_state */
    method ReadDwordData(pos: nat, ghost t: Text) returns (next: nat)
      requires Valid() && state == DwordData && data.NoData? && dataSize == 0 && parseType == REG_DWORD && At(pos, t)
      modifies this`state, this`data, this`dataSize, this`memory, this`heap, reader.buf
      ensures Valid() && (View(), Some(t)) == DwordDataState(old(View()), t)
      ensures Ready(next, t)
    {
      hide Valid, BufferOk, At, ConvertDword;
      var n := DwordAt(pos, t);
      AllocateDword();
      if n.Some? {
        StoreDword(n.value);
        SetState(SettingValue);
      } else {
        Discard(LineStart);
      }
      next := pos;
    }

    /** hex_data_state */
    method ReadHex(pos: nat, ghost t: Text) returns (next: nat, ghost u: Text)
      requires Valid() && state == HexData && !data.InLine? && (data.NoData? ==> dataSize == 0) && At(pos, t)
      modifies this`state, this`memory, this`data, this`dataSize, this`heap, this`backslash, this`erange
      ensures Valid() && (View(), Some(u)) == HexDataState(env, old(View()), t)
      ensures Ready(next, u)
    {
      hide Valid, BufferOk, At, Ready, DecodeCsv, PrepareHexString, FreeData;
      Buffered();
      next, u := pos, t;
      var c := Peek(pos, t);
      if c == NUL {
        SetState(SettingValue);
        OffText(pos, t);
        return;
      }
      var ok, after := ConvertHexCsv(pos, t, DecodeCsv(t));
      if !ok {
        Discard(LineStart);
        OffText(next, u);
      } else if backslash {
        SetState(EolBackslash);
        next, u := after, DecodeCsv(t).rest;
        OnText(next, u);
      } else {
        FinishHex();
        OffText(next, u);
      }
    }

    /** eol_backslash_state */
    method EndLine(pos: nat, ghost t: Text) returns (next: nat, ghost u: Text)
      requires Valid() && state == EolBackslash && At(pos, t)
      modifies this`state, this`data, this`dataSize, this`memory
      ensures Valid() && (View(), Some(u)) == EolBackslashState(old(View()), t)
      ensures Ready(next, u)
    {
      hide Valid, BufferOk, At, FreeData;
      Buffered();
      var p, c := FirstOf(pos, t);
      if c == NUL || c == SEMICOLON {
        SetState(HexMultiline);
        return pos, t;
      }
      Discard(LineStart);
      return p, SkipBlanks(t);
    }

    /** What RegSetValueExW gets: the block, or the string on the line with its terminator. */
    method Written() returns (bytes: seq<Byte>)
      requires Valid() && (data.NoData? ==> dataSize == 0)
      requires data.InLine? ==> borrowed.Some? && dataSize == 2 * (|borrowed.value| + 1)
      ensures bytes == FirstBytes(DataView(), dataSize)
    {
      match data
      case NoData => bytes := [];
      case InHeap(_) => bytes := heap[..dataSize];
      case InLine(i) =>
        assert reader.buf[i..i + |borrowed.value| + 1] == borrowed.value + [NUL];
        bytes := ToBytes(reader.buf[i..i + dataSize / 2]);
    }

    /** set_value_state */
    method WriteValue(pos: nat, ghost t: Text) returns (next: nat)
      requires Valid() && state == SettingValue && (data.NoData? ==> dataSize == 0)
      requires data.InLine? ==> borrowed.Some? && dataSize == 2 * (|borrowed.value| + 1)
      modifies this`state, this`data, this`dataSize, this`memory, this`calls
      ensures Valid() && (View(), Some(t)) == SetValueState(old(View()), t) && Ready(next, t)
    {
      hide Valid, FirstBytes, FreeData;
      var bytes := Written();
      ghost var p := View();
      calls := calls + [SetValue(hkey, Value(NameOf(valueName), dataType, bytes))];
      assert View() == p.(calls := calls);
      Discard(if version == Some(V31) then Win31Line else LineStart);
      next := pos;
    }

    // --------------------------------------------------------------- the main loop

    /** What the invariant of the machine says of these fields. */
    lemma {:induction false} InOrder()
      requires Inv(View())
      ensures !Refused() && state != UnknownData && (data.NoData? ==> dataSize == 0)
      ensures data.InLine? ==> state == SettingValue && borrowed.Some? && dataSize == 2 * (|borrowed.value| + 1)
      ensures RegSafety.NoData(state) ==> data.NoData? && dataSize == 0
      ensures state == EolBackslash || state == HexMultiline ==> data.InHeap?
      ensures state == StringData ==> parseType == REG_SZ
      ensures state == DwordData ==> parseType == REG_DWORD
    {
    }

    /** parser_funcs[parser.state](&parser, pos) for the states that read a line; -1 is NULL. */
    method ReadingStep(pos: nat, ghost t: Text) returns (next: int, ghost u: Option<Text>)
      requires Valid() && Inv(View()) && ReadsLine(state)
      modifies this, reader, reader.buf
      ensures Valid() && (reader.buf == old(reader.buf) || fresh(reader.buf))
      ensures (View(), u) == Step(env, old(View()), t)
      ensures if next >= 0 then u.Some? && Ready(next, u.value) else next == -1 && u.None? && reader.size == 0
    {
      hide Valid, Inv, At, Ready, HeaderState, Win31LineState, LineStartState, HexMultilineState;
      InOrder();
      match state
      case Header => next, u := HeaderLine(t);
      case Win31Line => next, u := Win31(t);
      case LineStart => next, u := StartLine(t);
      case HexMultiline =>
        ghost var text;
        next, text := ContinueHex(pos, t);
        u := Some(text);
    }

    /** The same for the states that read keys and names. */
    method NamingStep(pos: nat, ghost t: Text) returns (next: int, ghost u: Option<Text>)
      requires Valid() && data.NoData? && At(pos, t) && Anchored(state, t)
      requires state == KeyName || state == DeleteKey || state == DefaultValueName || state == QuotedValueName || state == DataStart
      modifies this`state, this`hkey, this`keyName, this`valueName, this`calls, this`exited, reader.buf
      ensures Valid() && (View(), u) == Step(env, old(View()), t)
      ensures if next >= 0 then u.Some? && Ready(next, u.value) else next == -1 && u.None? && exited
    {
      hide Valid, At, Ready, DataView, KeyNameState, DeleteKeyState, DefaultValueNameState, QuotedValueNameState, DataStartState;
      ghost var text;
      match state {
        case KeyName => next, text := ReadKeyName(pos, t);
        case DeleteKey => next, u := RemoveKey(pos, t); return;
        case DefaultValueName => next, text := DefaultName(pos, t);
        case QuotedValueName => next, text := QuotedName(pos, t);
        case DataStart => next, text := StartData(pos, t);
      }
      u := Some(text);
    }

    /** The same for the states that read data on one line. */
    method DataStep(pos: nat, ghost t: Text) returns (next: int, ghost u: Option<Text>)
      requires Valid() && data.NoData? && dataSize == 0 && At(pos, t) && Anchored(state, t)
      requires state == DeletingValue || state == DataType || (state == StringData && parseType == REG_SZ)
            || (state == DwordData && parseType == REG_DWORD)
      modifies this, reader.buf
      ensures Valid() && (View(), u) == Step(env, old(View()), t)
      ensures if next >= 0 then u.Some? && Ready(next, u.value) else next == -1 && u.None? && StrayEnd(env, old(View()), t)
    {
      hide Valid, At, Ready, DataView, DeleteValueState, DataTypeState, StringDataState, DwordDataState;
      ghost var text := t;
      match state {
        case DeletingValue => next, text := RemoveValue(pos, t);
        case DataType => next, text := ReadDataType(pos, t);
        case StringData => next, u := ReadString(pos, t); return;
        case DwordData => next := ReadDwordData(pos, t);
      }
      u := Some(text);
    }

    /** The same for the states that gather and write data; the last one looks at no text. */
    method HexStep(pos: nat, ghost t: Text) returns (next: nat, ghost u: Text)
      requires Valid() && (state == HexData || state == EolBackslash || state == SettingValue)
      requires (state != SettingValue ==> At(pos, t) && !data.InLine?) && (data.NoData? ==> dataSize == 0)
      requires data.InLine? ==> borrowed.Some? && dataSize == 2 * (|borrowed.value| + 1)
      modifies this, reader.buf
      ensures Valid() && (View(), Some(u)) == Step(env, old(View()), t) && Ready(next, u)
    {
      hide Valid, At, Ready, DataView, HexDataState, EolBackslashState, SetValueState;
      u := t;
      match state
      case HexData => next, u := ReadHex(pos, t);
      case EolBackslash => next, u := EndLine(pos, t);
      case SettingValue => next := WriteValue(pos, t);
    }

    /** The same for all states that work on the current line. */
    method ParsingStep(pos: nat, ghost t: Text) returns (next: int, ghost u: Option<Text>)
      requires Valid() && Inv(View()) && !ReadsLine(state) && Ready(pos, t)
      modifies this, reader.buf
      ensures Valid() && (View(), u) == Step(env, old(View()), t)
      ensures reader.Valid() && reader.State() == old(reader.State())
      ensures if next >= 0 then u.Some? && Ready(next, u.value)
              else next == -1 && u.None? && if StrayEnd(env, old(View()), t) then reader.size > 0 else exited
    {
      hide Valid, Inv, At, DataView, Step;
      InOrder();
      ghost var text;
      if state == KeyName || state == DeleteKey || state == DefaultValueName || state == QuotedValueName || state == DataStart {
        next, u := NamingStep(pos, t);
      } else if state == HexData || state == EolBackslash || state == SettingValue {
        assert state != SettingValue ==> At(pos, t);
        next, text := HexStep(pos, t);
        u := Some(text);
      } else {
        TextThere(pos, t);
        next, u := DataStep(pos, t);
      }
      Buffered();
    }

    /** One step of the machine, whichever state it is in. */
    method StepOn(pos: nat, ghost t: Text) returns (next: int, ghost u: Option<Text>)
      requires Valid() && Inv(View()) && Ready(pos, t)
      modifies this, reader, reader.buf
      ensures Valid() && (reader.buf == old(reader.buf) || fresh(reader.buf))
      ensures (View(), u) == Step(env, old(View()), t)
      ensures if next >= 0 then u.Some? && Ready(next, u.value) && Inv(View()) else next == -1 && u.None?
      ensures next == -1 ==> if StrayEnd(env, old(View()), t) then reader.size > 0 else exited || reader.size == 0
    {
      hide Valid, Inv, At, Step;
      StepKeeps(env, View(), t);
      if ReadsLine(state) {
        NotStray(env, View(), t);
        next, u := ReadingStep(pos, t);
      } else {
        next, u := ParsingStep(pos, t);
      }
    }

    lemma {:induction false} RunOn(t: Text)
      ensures var (q, next) := Step(env, View(), t);
        && Run(env, View(), t) == (if next.None? then q else Run(env, q, next.value))
        && (Strays(env, View(), t) <==> StrayEnd(env, View(), t) || (next.Some? && Strays(env, q, next.value)))
        && (StrayEnd(env, View(), t) ==> next.None?)
    {
      hide Unescape, SkipBlanks;
    }

    /** The main loop of import_registry_file. Only at a pointer never set does it stop with the reader in use. */
    method Loop()
      requires Valid() && Inv(View()) && ReadsLine(state)
      modifies this, reader, reader.buf
      ensures Valid() && View() == Run(env, old(View()), [])
      ensures exited || (reader.size == 0 <==> !Strays(env, old(View()), []))
    {
      hide Valid, Inv, At, Step, Units, Run, Strays, StrayEnd;
      var pos: int := 0;
      ghost var end, strays := Run(env, View(), []), Strays(env, View(), []);
      ghost var t: Option<Text> := Some([]);
      while pos >= 0
        invariant Valid() && (reader.buf == old(reader.buf) || fresh(reader.buf))
        invariant pos >= 0 ==> t.Some? && Inv(View()) && Ready(pos, t.value)
        invariant pos >= 0 ==> Run(env, View(), t.value) == end && Strays(env, View(), t.value) == strays
        invariant pos < 0 ==> View() == end && (exited || (reader.size == 0 <==> !strays))
        decreases pos >= 0, Units(View().lines), RestartRank(state), |View().lines|, StateRank(state)
      {
        StepLowers(env, View(), t.value);
        RunOn(t.value);
        pos, t := StepOn(pos, t.value);
      }
    }
  }

  /**
   import_registry_file on a Unicode file delivered in the given reads. It asks of the static reader
   only that the import before has released it. An import that returns releases it again exactly
   when no string of the file fails before its rest is known, or the pointer never set is not NULL.
   */
  method ImportRegistryFile(env: Env, reader: LineBuffer, chunks: seq<Text>, errnoSet: bool) returns (r: Result)
    requires reader.Valid() && reader.size == 0 && ValidChunks(chunks)
    modifies reader, reader.buf
    ensures reader.Valid() && r == Import(env, Lines(Reader(0, None, chunks)), errnoSet)
    ensures r.Returned? ==>
      (reader.size == 0 <==> !(env.strayNull && StringFails(Lines(Reader(0, None, chunks)), errnoSet)))
  {
    hide Run, Lines, StringFails, Strays;
    reader.file := chunks;
    var p := new ImportParser(reader, env, errnoSet);
    InitialInv(Lines(reader.State()), errnoSet);
    StraysExactly(env, Lines(reader.State()), errnoSet);
    p.Loop();
    if p.exited { return Exited(p.calls); }
    if p.version == Some(Fuzzy) || p.version == Some(Invalid) { return Returned(p.version == Some(Fuzzy), p.calls); }
    p.CloseKey();
    r := Returned(true, p.calls);
  }
}
