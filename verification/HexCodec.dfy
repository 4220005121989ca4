/**
 Hexadecimal numbers and comma-separated hex data in registry files: wcstoul as the
 importer uses it, the wrapped output of the exporter, and the decoder.
 */
module HexCodec {
  import opened Basics
  import opened WideText

  const LETTER_X: WChar := 0x78
  const UPPER_X: WChar := 0x58
  const PLUS: WChar := 0x2B

  predicate IsHex(c: WChar) {
    0x30 <= c <= 0x39 || 0x41 <= c <= 0x46 || 0x61 <= c <= 0x66
  }

  function HexValue(c: WChar): (v: nat)
    requires IsHex(c)
    ensures v < 16
  {
    if c <= 0x39 then c - 0x30 else if c <= 0x46 then c - 0x41 + 10 else c - 0x61 + 10
  }

  function HexDigit(v: nat): (c: WChar)
    requires v < 16
    ensures IsHex(c) && HexValue(c) == v
  {
    if v < 10 then 0x30 + v else 0x61 + v - 10
  }

  predicate AllHex(s: Text) {
    forall i :: 0 <= i < |s| ==> IsHex(s[i])
  }

  function HexNumber(s: Text): nat
    requires AllHex(s)
  {
    if s == [] then 0 else HexNumber(s[..|s| - 1]) * 16 + HexValue(s[|s| - 1])
  }

  /** printf's %x */
  function HexText(n: nat): (s: Text)
    ensures AllHex(s) && |s| >= 1
  {
    if n < 16 then [HexDigit(n)] else HexText(n / 16) + [HexDigit(n % 16)]
  }

  /** printf's %0<width>x for a number of at most width digits */
  function HexPadded(n: nat, width: nat): (s: Text)
    ensures AllHex(s) && |s| == width
  {
    if width == 0 then [] else HexPadded(n / 16, width - 1) + [HexDigit(n % 16)]
  }

  function Pow16(k: nat): nat {
    if k == 0 then 1 else 16 * Pow16(k - 1)
  }

  lemma {:induction false} HexTextValue(n: nat)
    ensures HexNumber(HexText(n)) == n
  {
    var s := HexText(n);
    if n < 16 {
      assert s[..0] == [];
    } else {
      assert s[..|s| - 1] == HexText(n / 16);
      HexTextValue(n / 16);
    }
  }

  lemma {:induction false} HexTextLength(n: nat, k: nat)
    requires n < Pow16(k) && k >= 1
    ensures |HexText(n)| <= k
  {
    if n < 16 {
    } else {
      assert Pow16(1) == 16 * Pow16(0);
      HexTextLength(n / 16, k - 1);
    }
  }

  lemma {:induction false} HexPaddedValue(n: nat, width: nat)
    requires n < Pow16(width)
    ensures HexNumber(HexPadded(n, width)) == n
  {
    if width == 0 {
    } else {
      var s := HexPadded(n, width);
      assert s[..width - 1] == HexPadded(n / 16, width - 1);
      HexPaddedValue(n / 16, width - 1);
    }
  }

  // ------------------------------------------------------------------ wcstoul

  /** iswspace */
  predicate IsSpace(c: WChar) {
    c == SPACE || c == TAB || c == CR || c == LF
  }

  function SpaceRun(s: Text): (n: nat)
    ensures n <= |s|
    ensures n < |s| ==> !IsSpace(s[n])
  {
    if s == [] || !IsSpace(s[0]) then 0 else 1 + SpaceRun(s[1..])
  }

  /** How many hex digits the text starts with. */
  function HexRun(s: Text): (n: nat)
    ensures n <= |s| && AllHex(s[..n])
    ensures n < |s| ==> !IsHex(s[n])
  {
    if s == [] || !IsHex(s[0]) then 0 else
    var m := HexRun(s[1..]);
    assert forall i :: 1 <= i < m + 1 ==> s[i] == s[1..][..m][i - 1];
    m + 1
  }

  lemma {:induction false} HexRunOf(digits: Text, rest: Text)
    requires AllHex(digits) && (rest == [] || !IsHex(rest[0]))
    ensures HexRun(digits + rest) == |digits|
  {
    var n := HexRun(digits + rest);
    assert forall i :: 0 <= i < |digits| ==> (digits + rest)[i] == digits[i];
    assert forall i :: 0 <= i < n ==> IsHex((digits + rest)[..n][i]) && (digits + rest)[..n][i] == (digits + rest)[i];
    assert rest != [] ==> (digits + rest)[|digits|] == rest[0];
  }

  datatype Number = Number(value: nat, end: nat, overflow: bool)

  /**
   wcstoul(s, &end, 16) with a 32-bit unsigned long: white space, an optional sign,
   an optional 0x before a digit, digits. Without digits, end is 0 and so is the value.
   */
  function Wcstoul(s: Text): (r: Number)
    ensures r.end <= |s| && r.value < UINT32
    ensures r.end == 0 ==> r.value == 0
    ensures r.overflow ==> r.value == UINT32 - 1
  {
    var i := SpaceRun(s);
    var j := if i < |s| && (s[i] == MINUS || s[i] == PLUS) then i + 1 else i;
    var k := if j + 2 < |s| && s[j] == 0x30 && (s[j + 1] == LETTER_X || s[j + 1] == UPPER_X) && IsHex(s[j + 2])
             then j + 2 else j;
    var n := HexRun(s[k..]);
    if n == 0 then Number(0, 0, false) else
    var v := HexNumber(s[k..][..n]);
    if v >= UINT32 then Number(UINT32 - 1, k + n, true)
    else if j > i && s[i] == MINUS then Number((UINT32 - v) % UINT32, k + n, false)
    else Number(v, k + n, false)
  }

  /** On plain digits wcstoul reads exactly the digits. */
  lemma {:induction false} WcstoulDigits(digits: Text, rest: Text)
    requires AllHex(digits) && |digits| >= 1 && HexNumber(digits) < UINT32
    requires rest == [] || (!IsHex(rest[0]) && rest[0] != LETTER_X && rest[0] != UPPER_X)
    ensures Wcstoul(digits + rest) == Number(HexNumber(digits), |digits|, false)
  {
    var s := digits + rest;
    assert s[0] == digits[0] && IsHex(s[0]);
    assert SpaceRun(s) == 0;
    assert |s| > 1 ==> s[1] == if |digits| > 1 then digits[1] else rest[0];
    HexRunOf(digits, rest);
    assert s[0..] == s && s[..|digits|] == digits;
  }

  // ----------------------------------------------------------- hex data, import

  /** Outcome of convert_hex_csv_to_hex: bytes gained, and the text after a final backslash. */
  datatype Csv = Csv(ok: bool, bytes: seq<Byte>, backslash: bool, rest: Text, overflow: bool)

  /** A byte followed by a comma or the end of the text: the loop goes round again. */
  predicate CsvContinues(s: Text, num: Number)
    requires num.end <= |s|
  {
    num.value <= 0xFF && num.end > 0 && (num.end == |s| || s[num.end] == COMMA)
  }

  /** The round that ends the loop: too large, no number, or a byte followed by something else. */
  function CsvLast(s: Text, num: Number): Csv
    requires num.end <= |s|
  {
    if num.value > 0xFF then Csv(false, [], false, [], num.overflow)
    else
      var e := SkipBlanks(s[num.end..]);
      if num.end > 0 then Csv(e == [] || e[0] == SEMICOLON, [num.value], false, [], false)
      else if e != [] && e[0] == BACKSLASH then Csv(true, [], true, e[1..], false)
      else Csv(e != [] && e[0] == SEMICOLON, [], false, [], false)
  }

  function AfterComma(s: Text, end: nat): (r: Text)
    requires end <= |s|
    ensures 0 < end ==> |r| < |s| || s == []
  {
    if end == |s| then [] else s[end + 1..]
  }

  function DecodeCsv(s: Text): (r: Csv)
    decreases |s|
  {
    if s == [] then Csv(true, [], false, [], false) else
    var num := Wcstoul(s);
    if CsvContinues(s, num) then
      var more := DecodeCsv(AfterComma(s, num.end));
      more.(bytes := [num.value] + more.bytes)
    else CsvLast(s, num)
  }

  /** One digit and one comma for each byte is the least a list can take. */
  lemma {:induction false} CsvBytesBound(s: Text)
    ensures 2 * |DecodeCsv(s).bytes| <= |s| + 1
    decreases |s|
  {
    if s != [] {
      var num := Wcstoul(s);
      if CsvContinues(s, num) { CsvBytesBound(AfterComma(s, num.end)); }
    }
  }

  // ---------------------------------------------------------- fields of a list

  /** What ends a field: a comma, or the comment or backslash behind the last one. */
  predicate IsStop(c: WChar) {
    c == COMMA || c == SEMICOLON || c == BACKSLASH
  }

  function StopAt(t: Text): (i: nat)
    ensures i <= |t| && (i < |t| ==> IsStop(t[i]))
    ensures forall k :: 0 <= k < i ==> !IsStop(t[k])
  {
    if t == [] || IsStop(t[0]) then 0 else
    var j := StopAt(t[1..]);
    assert forall k :: 1 <= k < j + 1 ==> t[k] == t[1..][k - 1];
    j + 1
  }

  /** The comma-separated fields of a text, an empty last one not counted. */
  function Fields(t: Text): nat
    decreases |t|
  {
    var i := StopAt(t);
    if i < |t| && t[i] == COMMA then 1 + Fields(t[i + 1..]) else if SkipBlanks(t[..i]) == [] then 0 else 1
  }

  lemma {:induction false} StopIs(t: Text, i: nat)
    requires i <= |t| && (forall k :: 0 <= k < i ==> !IsStop(t[k])) && (i == |t| || IsStop(t[i]))
    ensures StopAt(t) == i
  {
    assert !(StopAt(t) < i);
  }

  lemma {:induction false} SpacesRun(s: Text, j: nat)
    requires j < SpaceRun(s)
    ensures IsSpace(s[j])
  {
    if j > 0 { SpacesRun(s[1..], j - 1); }
  }

  /** White space, a sign, a prefix and digits, as far as they are there. */
  lemma {:induction false} PartsPlain(s: Text, i: nat, k: nat, n: nat)
    requires i == SpaceRun(s) && i <= k <= |s| && n == HexRun(s[k..])
    requires forall m :: i <= m < k ==> !IsStop(s[m])
    ensures (n > 0 ==> IsHex(s[k + n - 1])) && forall m :: 0 <= m < k + n ==> !IsStop(s[m])
  {
    forall m | 0 <= m < k + n ensures !IsStop(s[m]) {
      if m < i { SpacesRun(s, m); } else if m >= k { assert s[k..][..n][m - k] == s[m]; }
    }
    if n > 0 { assert s[k..][..n][n - 1] == s[k + n - 1]; }
  }

  lemma {:induction false} StopsOnly()
    ensures !IsStop(MINUS) && !IsStop(PLUS) && !IsStop(0x30) && !IsStop(LETTER_X) && !IsStop(UPPER_X)
  {
  }

  /** A number takes up no stop, and ends in a digit. */
  lemma {:induction false} NumberPlain(s: Text)
    ensures var end := Wcstoul(s).end;
      (end > 0 ==> IsHex(s[end - 1])) && forall j :: 0 <= j < end ==> !IsStop(s[j])
  {
    hide HexNumber, HexRun, SpaceRun, AllHex, IsStop;
    StopsOnly();
    var i := SpaceRun(s);
    var j := if i < |s| && (s[i] == MINUS || s[i] == PLUS) then i + 1 else i;
    var k := if j + 2 < |s| && s[j] == 0x30 && (s[j + 1] == LETTER_X || s[j + 1] == UPPER_X) && IsHex(s[j + 2])
             then j + 2 else j;
    var n := HexRun(s[k..]);
    PartsPlain(s, i, k, n);
    assert Wcstoul(s).end == if n == 0 then 0 else k + n;
  }

  lemma {:induction false} NotBlank(t: Text, k: nat)
    requires k < |t| && !IsBlank(t[k])
    ensures SkipBlanks(t) != []
  {
    if IsBlank(t[0]) { NotBlank(t[1..], k - 1); }
  }

  /** Blanks up to the end or to something else. */
  lemma {:induction false} BlankPart(t: Text)
    ensures var i := |t| - |SkipBlanks(t)|;
      && t[i..] == SkipBlanks(t) && SkipBlanks(t[..i]) == [] && forall k :: 0 <= k < i ==> IsBlank(t[k])
  {
    if t != [] && IsBlank(t[0]) {
      BlankPart(t[1..]);
      var i := |t| - |SkipBlanks(t)|;
      assert t[..i][1..] == t[1..][..i - 1] && t[i..] == t[1..][i - 1..];
      forall k | 0 <= k < i ensures IsBlank(t[k]) { if k > 0 { assert t[k] == t[1..][k - 1]; } }
    }
  }

  /** The field at the front, when a comma or the end follows its number. */
  lemma {:induction false} FieldFirst(s: Text, num: Number)
    requires s != [] && num == Wcstoul(s) && CsvContinues(s, num)
    ensures Fields(s) == 1 + Fields(AfterComma(s, num.end))
  {
    hide Wcstoul;
    NumberPlain(s);
    StopIs(s, num.end);
    if num.end == |s| {
      assert s[..num.end] == s && StopAt([]) == 0;
      NotBlank(s, num.end - 1);
    }
  }

  /** The round that ends a well-formed list. */
  lemma {:induction false} FieldLast(s: Text, num: Number)
    requires s != [] && num == Wcstoul(s) && !CsvContinues(s, num) && CsvLast(s, num).ok
    ensures Fields(s) == |CsvLast(s, num).bytes|
  {
    hide Wcstoul;
    NumberPlain(s);
    var tail := s[num.end..];
    BlankPart(tail);
    var i := num.end + |tail| - |SkipBlanks(tail)|;
    forall k | num.end <= k < i ensures !IsStop(s[k]) { assert s[k] == tail[k - num.end]; }
    assert i < |s| ==> s[i] == SkipBlanks(tail)[0];
    StopIs(s, i);
    if num.end > 0 {
      assert s[..i][num.end - 1] == s[num.end - 1];
      NotBlank(s[..i], num.end - 1);
    } else {
      assert tail == s;
    }
  }

  /** A well-formed list has a byte for each of its fields. */
  lemma {:induction false} FieldsDecoded(s: Text)
    requires DecodeCsv(s).ok
    ensures |DecodeCsv(s).bytes| == Fields(s)
    decreases |s|
  {
    hide Wcstoul, Fields;
    if s == [] {
      NoFields();
    } else {
      var num := Wcstoul(s);
      if CsvContinues(s, num) {
        FieldFirst(s, num);
        FieldsDecoded(AfterComma(s, num.end));
      } else {
        FieldLast(s, num);
      }
    }
  }

  lemma {:induction false} NoFields()
    ensures Fields([]) == 0
  {
    assert StopAt([]) == 0;
  }

  // ----------------------------------------------------------- hex data, export

  const MAX_HEX_CHARS := 77

  const WRAP: Text := [BACKSLASH] + CRLF + [SPACE, SPACE]

  function Hex2(b: Byte): Text {
    HexPadded(b, 2)
  }

  /** The text export_hex_data writes after the type tag when the line is already len long. */
  function HexBody(data: seq<Byte>, len: nat): Text {
    if data == [] then []
    else if |data| == 1 then Hex2(data[0])
    else if len + 3 >= MAX_HEX_CHARS then Hex2(data[0]) + [COMMA] + WRAP + HexBody(data[1..], 2)
    else Hex2(data[0]) + [COMMA] + HexBody(data[1..], len + 3)
  }

  /** The same bytes grouped by output line. */
  function HexRows(data: seq<Byte>, len: nat): (rows: seq<seq<Byte>>)
    requires data != []
    ensures |rows| >= 1 && forall i :: 0 <= i < |rows| ==> rows[i] != []
  {
    if |data| == 1 then [data]
    else if len + 3 >= MAX_HEX_CHARS then [[data[0]]] + HexRows(data[1..], 2)
    else
      var more := HexRows(data[1..], len + 3);
      [[data[0]] + more[0]] + more[1..]
  }

  function CsvText(row: seq<Byte>): Text {
    if row == [] then []
    else if |row| == 1 then Hex2(row[0])
    else Hex2(row[0]) + [COMMA] + CsvText(row[1..])
  }

  function RowsText(rows: seq<seq<Byte>>): Text {
    if rows == [] then []
    else if |rows| == 1 then CsvText(rows[0])
    else CsvText(rows[0]) + [COMMA] + WRAP + RowsText(rows[1..])
  }

  /** The rows carry all the bytes in order. */
  lemma {:induction false} RowsFlatten(data: seq<Byte>, len: nat)
    requires data != []
    ensures Concat(HexRows(data, len)) == data
  {
    var rows := HexRows(data, len);
    if |data| == 1 {
      assert rows[1..] == [];
    } else if len + 3 >= MAX_HEX_CHARS {
      RowsFlatten(data[1..], 2);
      assert rows[1..] == HexRows(data[1..], 2);
    } else {
      var more := HexRows(data[1..], len + 3);
      RowsFlatten(data[1..], len + 3);
      assert rows[1..] == more[1..];
      assert Concat(rows) == [data[0]] + (more[0] + Concat(more[1..]));
    }
  }

  lemma {:induction false} CsvTextCons(b: Byte, row: seq<Byte>)
    requires row != []
    ensures CsvText([b] + row) == Hex2(b) + [COMMA] + CsvText(row)
  {
    assert ([b] + row)[1..] == row;
  }

  lemma {:induction false} RowsTextTail(row: seq<Byte>, rest: seq<seq<Byte>>)
    ensures RowsText([row] + rest) == CsvText(row) + (if rest == [] then [] else [COMMA] + WRAP + RowsText(rest))
  {
    assert ([row] + rest)[1..] == rest;
  }

  /** A byte in front of the first row goes in front of the text. */
  lemma {:induction false} RowsTextCons(b: Byte, more: seq<seq<Byte>>)
    requires more != [] && more[0] != []
    ensures RowsText([[b] + more[0]] + more[1..]) == Hex2(b) + [COMMA] + RowsText(more)
  {
    hide CsvText, Hex2, RowsText;
    CsvTextCons(b, more[0]);
    RowsTextTail([b] + more[0], more[1..]);
    RowsTextTail(more[0], more[1..]);
    assert more == [more[0]] + more[1..];
  }

  /** The exporter's text is the rows'. */
  lemma {:induction false} RowsOf(data: seq<Byte>, len: nat)
    requires data != []
    ensures RowsText(HexRows(data, len)) == HexBody(data, len)
  {
    var rows := HexRows(data, len);
    if |data| == 1 {
    } else if len + 3 >= MAX_HEX_CHARS {
      RowsOf(data[1..], 2);
      assert rows[1..] == HexRows(data[1..], 2);
    } else {
      RowsOf(data[1..], len + 3);
      RowsTextCons(data[0], HexRows(data[1..], len + 3));
    }
  }

  /**
   Row widths: a row is cut exactly when its line reaches the limit, so a
   continuation line holds at most 25 bytes.
   */
  lemma {:induction false} RowWidths(data: seq<Byte>, len: nat)
    requires data != []
    ensures var rows := HexRows(data, len);
      && (|rows[0]| > 1 ==> len + 3 * (|rows[0]| - 1) < MAX_HEX_CHARS)
      && (|rows| > 1 ==> len + 3 * |rows[0]| >= MAX_HEX_CHARS)
      && forall i :: 1 <= i < |rows| ==> |rows[i]| <= 25
  {
    var rows := HexRows(data, len);
    if |data| == 1 {
    } else if len + 3 >= MAX_HEX_CHARS {
      RowWidths(data[1..], 2);
      var more := HexRows(data[1..], 2);
      assert forall i :: 1 <= i < |rows| ==> rows[i] == more[i - 1];
    } else {
      RowWidths(data[1..], len + 3);
      var more := HexRows(data[1..], len + 3);
      assert forall i :: 1 <= i < |rows| ==> rows[i] == more[i];
    }
  }

  // --------------------------------------------------------------- round trips

  lemma {:induction false} Hex2Value(b: Byte)
    ensures AllHex(Hex2(b)) && |Hex2(b)| == 2 && HexNumber(Hex2(b)) == b
  {
    assert Pow16(2) == 16 * Pow16(1) && Pow16(1) == 16 * Pow16(0);
    HexPaddedValue(b, 2);
  }

  lemma {:induction false} DecodeByte(b: Byte, rest: Text, more: Csv)
    requires rest == [] || rest[0] == COMMA
    requires DecodeCsv(if rest == [] then [] else rest[1..]) == more
    ensures DecodeCsv(Hex2(b) + rest) == more.(bytes := [b] + more.bytes)
  {
    var s := Hex2(b) + rest;
    Hex2Value(b);
    WcstoulDigits(Hex2(b), rest);
    assert rest != [] ==> s[2] == rest[0];
    assert AfterComma(s, 2) == if rest == [] then [] else rest[1..];
  }

  /** The text of a row ending in `tail`, cut after its first byte. */
  lemma {:induction false} CsvTextCut(row: seq<Byte>, tail: Text)
    requires |row| > 1
    ensures CsvText(row) + tail == Hex2(row[0]) + ([COMMA] + (CsvText(row[1..]) + tail))
    ensures ([COMMA] + (CsvText(row[1..]) + tail))[1..] == CsvText(row[1..]) + tail
  {
  }

  lemma {:induction false} DecodeBackslash()
    ensures DecodeCsv([BACKSLASH]) == Csv(true, [], true, [], false)
  {
    var s: Text := [BACKSLASH];
    assert SpaceRun(s) == 0 && s[0..] == s && HexRun(s) == 0;
    assert s[1..] == [];
  }

  lemma {:induction false} DecodeNothing()
    ensures DecodeCsv([]) == Csv(true, [], false, [], false)
  {
  }

  /** A row decodes to its bytes; if the exporter cut it there, the decoder asks for the next line. */
  lemma {:induction false} DecodeEnd(row: seq<Byte>, cut: bool)
    requires row != []
    ensures DecodeCsv(CsvText(row) + if cut then [COMMA, BACKSLASH] else []) == Csv(true, row, cut, [], false)
  {
    hide DecodeCsv, Hex2;
    var tail: Text := if cut then [COMMA, BACKSLASH] else [];
    if |row| == 1 {
      DecodeNothing();
      DecodeBackslash();
      assert cut ==> tail[1..] == [BACKSLASH];
      DecodeByte(row[0], tail, Csv(true, [], cut, [], false));
    } else {
      DecodeEnd(row[1..], cut);
      CsvTextCut(row, tail);
      DecodeByte(row[0], [COMMA] + (CsvText(row[1..]) + tail), Csv(true, row[1..], cut, [], false));
      assert [row[0]] + row[1..] == row;
    }
  }

  lemma {:induction false} DecodeRow(row: seq<Byte>)
    requires row != []
    ensures DecodeCsv(CsvText(row)) == Csv(true, row, false, [], false)
  {
    DecodeEnd(row, false);
    assert CsvText(row) + [] == CsvText(row);
  }

  lemma {:induction false} DecodeCutRow(row: seq<Byte>)
    requires row != []
    ensures DecodeCsv(CsvText(row) + [COMMA, BACKSLASH]) == Csv(true, row, true, [], false)
  {
    DecodeEnd(row, true);
  }

  lemma {:induction false} CsvTextLength(row: seq<Byte>)
    requires row != []
    ensures |CsvText(row)| == 3 * |row| - 1
  {
    if |row| > 1 { CsvTextLength(row[1..]); }
  }

  lemma {:induction false} CsvTextOneLine(row: seq<Byte>)
    ensures OneLine(CsvText(row)) && NulFree(CsvText(row))
    ensures row != [] ==> CsvText(row) != [] && IsHex(CsvText(row)[0])
    ensures row != [] ==> IsHex(CsvText(row)[|CsvText(row)| - 1])
  {
    if row != [] {
      Hex2Value(row[0]);
      assert forall c :: c in Hex2(row[0]) ==> IsHex(c);
      CsvTextOneLine(row[1..]);
    }
  }

  // ------------------------------------------------------------ implementation

  /** What one round of the exporting loop adds for byte i, and the line length after it. */
  function HexPiece(data: seq<Byte>, i: nat, len: nat): Text
    requires i < |data|
  {
    Hex2(data[i]) + (if i == |data| - 1 then [] else if len + 3 >= MAX_HEX_CHARS then [COMMA] + WRAP else [COMMA])
  }

  function NextLen(len: nat): nat {
    if len + 3 >= MAX_HEX_CHARS then 2 else len + 3
  }

  lemma {:induction false} HexRound(data: seq<Byte>, i: nat, len: nat, out: Text)
    requires i < |data|
    ensures out + HexBody(data[i..], len) == out + HexPiece(data, i, len) + HexBody(data[i + 1..], NextLen(len))
  {
    assert data[i..][1..] == data[i + 1..];
    var more := HexBody(data[i + 1..], NextLen(len));
    assert HexBody(data[i..], len) == HexPiece(data, i, len) + more;
  }

  lemma {:induction false} HexBodyNone(len: nat)
    ensures HexBody([], len) == []
  {
  }

  /** swprintf(buf + pos, 3, L"%02x", b), then a comma and a terminator unless it was the last byte. */
  method PutHex2(buf: array<WChar>, start: nat, b: Byte, last: bool) returns (pos: nat)
    requires start + (if last then 3 else 4) <= buf.Length
    modifies buf
    ensures pos == start + (if last then 2 else 3)
    ensures buf[..pos] == old(buf[..start]) + Hex2(b) + (if last then [] else [COMMA])
  {
    Hex2Value(b);
    var h := Hex2(b);
    buf[start] := h[0];
    buf[start + 1] := h[1];
    buf[start + 2] := NUL;
    pos := start + 2;
    if !last {
      buf[pos] := COMMA;
      pos := pos + 1;
      buf[pos] := NUL;
    }
  }

  /**
   The loop of export_hex_data over a scratch buffer of three characters per byte.
   `written` went to the file; `tail` is what the buffer holds for the caller to write.
   */
  method ExportHexData(data: seq<Byte>, startLen: nat) returns (written: Text, tail: Text)
    requires data != []
    ensures written + tail == HexBody(data, startLen)
  {
    hide HexBody, Hex2;
    var size := |data|;
    var buf := new WChar[size * 3](_ => NUL);
    var i, pos, lineLen := 0, 0, startLen;
    written := [];
    assert data[0..] == data;
    ghost var out: Text := [];
    while i < size
      invariant 0 <= i <= size && 0 <= pos <= 3 * i && lineLen >= 0 && pos <= buf.Length
      invariant out == written + buf[..pos]
      invariant i < size ==> out + HexBody(data[i..], lineLen) == HexBody(data, startLen)
      invariant i == size ==> out == HexBody(data, startLen)
    {
      HexRound(data, i, lineLen, out);
      HexBodyNone(NextLen(lineLen));
      assert i + 1 == size ==> data[i + 1..] == [];
      out := out + HexPiece(data, i, lineLen);
      var last := i == size - 1;
      pos := PutHex2(buf, pos, data[i], last);
      lineLen := lineLen + 3;
      if !last && lineLen >= MAX_HEX_CHARS {
        written := written + buf[..pos] + WRAP;
        lineLen := 2;
        pos := 0;
      }
      assert out == written + buf[..pos];
      i := i + 1;
    }
    tail := buf[..pos];
  }
}
