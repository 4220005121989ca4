/**
 Lists of bytes as they may be written by hand: what a number with white space, a sign and a
 prefix is read as, and what a list of such numbers gives, by what follows each of them.
 */
module HexLists {
  import opened WideText
  import opened HexCodec

  /** One number: white space, a sign, a prefix and digits. */
  datatype Numeral = Numeral(spaces: Text, sign: Text, prefix: Text, digits: Text) {
    predicate Valid() {
      && (forall i :: 0 <= i < |spaces| ==> IsSpace(spaces[i]))
      && (sign == [] || sign == [PLUS] || sign == [MINUS])
      && (prefix == [] || prefix == [0x30, LETTER_X] || prefix == [0x30, UPPER_X])
      && digits != [] && AllHex(digits)
    }

    function Text(): WideText.Text {
      spaces + (sign + (prefix + digits))
    }

    /** The number meant, cut to 32 bits; a minus sign counts down from 2 to the 32. */
    function Value(): nat
      requires Valid()
    {
      var n := HexNumber(digits);
      if n >= UINT32 then UINT32 - 1 else if sign == [MINUS] && n > 0 then UINT32 - n else n
    }
  }

  /** Something that does not go on with the digits, nor turns a single zero into a prefix. */
  predicate Stops(rest: Text) {
    rest == [] || (!IsHex(rest[0]) && rest[0] != LETTER_X && rest[0] != UPPER_X)
  }

  lemma {:induction false} SpacesFirst(spaces: Text, rest: Text)
    requires (forall i :: 0 <= i < |spaces| ==> IsSpace(spaces[i])) && (rest == [] || !IsSpace(rest[0]))
    ensures SpaceRun(spaces + rest) == |spaces|
  {
    if spaces == [] {
      assert spaces + rest == rest;
    } else {
      assert (spaces + rest)[1..] == spaces[1..] + rest;
      SpacesFirst(spaces[1..], rest);
    }
  }

  /** Where the digits start: behind the sign and a prefix. */
  lemma {:induction false} PrefixAt(prefix: Text, digits: Text, rest: Text)
    requires (prefix == [] || prefix == [0x30, LETTER_X] || prefix == [0x30, UPPER_X]) && digits != [] && AllHex(digits) && Stops(rest)
    ensures var t := prefix + digits + rest;
      (2 < |t| && t[0] == 0x30 && (t[1] == LETTER_X || t[1] == UPPER_X) && IsHex(t[2])) <==> prefix != []
  {
    var t := prefix + digits + rest;
    if prefix == [] {
      assert t[0] == digits[0];
      assert |t| > 1 ==> t[1] == if |digits| > 1 then digits[1] else rest[0];
    } else {
      assert t[2] == digits[0];
    }
  }

  /** The parts of a number by where they start. */
  lemma {:induction false} NumberAt(s: Text, i: nat, j: nat, k: nat, n: nat)
    requires i == SpaceRun(s) && j == if i < |s| && (s[i] == MINUS || s[i] == PLUS) then i + 1 else i
    requires k == if j + 2 < |s| && s[j] == 0x30 && (s[j + 1] == LETTER_X || s[j + 1] == UPPER_X) && IsHex(s[j + 2]) then j + 2 else j
    requires k <= |s| && n == HexRun(s[k..]) && n > 0
    ensures var v := HexNumber(s[k..][..n]);
      Wcstoul(s) == Number(if v >= UINT32 then UINT32 - 1 else if j > i && s[i] == MINUS && v > 0 then UINT32 - v else v, k + n, v >= UINT32)
  {
    hide HexNumber, HexRun, SpaceRun;
  }

  lemma {:induction false} SignAt(n: Numeral, rest: Text)
    requires n.Valid()
    ensures var s, i := n.Text() + rest, |n.spaces|;
      && i == SpaceRun(s) && i < |s| && ((s[i] == MINUS || s[i] == PLUS) <==> n.sign != []) && (s[i] == MINUS <==> n.sign == [MINUS])
  {
    var s, t := n.Text() + rest, n.prefix + n.digits + rest;
    var tail := n.sign + t;
    assert s == n.spaces + tail;
    assert IsHex(n.digits[0]);
    assert t[0] == if n.prefix == [] then n.digits[0] else 0x30;
    assert tail[0] == if n.sign == [] then t[0] else n.sign[0];
    SpacesFirst(n.spaces, tail);
    assert s[|n.spaces|] == tail[0];
  }

  lemma {:induction false} Regrouped(a: Text, b: Text, c: Text, d: Text, e: Text)
    ensures a + (b + (c + d)) + e == (a + b) + (c + d + e) == (a + b + c) + (d + e)
  {
  }

  lemma {:induction false} Behind(a: Text, b: Text)
    ensures (a + b)[|a|..] == b
  {
  }

  lemma {:induction false} PartsAt(n: Numeral, rest: Text, s: Text, j: nat, k: nat)
    requires s == n.Text() + rest && j == |n.spaces| + |n.sign| && k == j + |n.prefix|
    ensures k <= |s| && s[j..] == n.prefix + n.digits + rest && s[k..] == n.digits + rest && s[k..][..|n.digits|] == n.digits
  {
    Regrouped(n.spaces, n.sign, n.prefix, n.digits, rest);
    Behind(n.spaces + n.sign, n.prefix + n.digits + rest);
    Behind(n.spaces + n.sign + n.prefix, n.digits + rest);
  }

  lemma {:induction false} DigitsAt(n: Numeral, rest: Text, s: Text, j: nat, k: nat)
    requires n.Valid() && Stops(rest) && s == n.Text() + rest && j == |n.spaces| + |n.sign| && k == j + |n.prefix|
    ensures k <= |s| && HexRun(s[k..]) == |n.digits| && s[k..][..|n.digits|] == n.digits
    ensures (j + 2 < |s| && s[j] == 0x30 && (s[j + 1] == LETTER_X || s[j + 1] == UPPER_X) && IsHex(s[j + 2])) <==> n.prefix != []
  {
    hide HexRun, IsHex, AllHex;
    var t := n.prefix + n.digits + rest;
    PartsAt(n, rest, s, j, k);
    PrefixAt(n.prefix, n.digits, rest);
    HexRunOf(n.digits, rest);
    assert |s| > j + 2 ==> s[j] == s[j..][0] && s[j + 1] == s[j..][1] && s[j + 2] == s[j..][2];
  }

  /** A numeral is read to its end, and as the number it means. */
  lemma {:induction false} NumeralRead(n: Numeral, rest: Text)
    requires n.Valid() && Stops(rest)
    ensures Wcstoul(n.Text() + rest) == Number(n.Value(), |n.Text()|, HexNumber(n.digits) >= UINT32)
  {
    hide HexNumber, HexRun, SpaceRun, Wcstoul, AllHex, IsHex, Stops;
    var s := n.Text() + rest;
    var i := |n.spaces|;
    var j := i + |n.sign|;
    var k := j + |n.prefix|;
    SignAt(n, rest);
    DigitsAt(n, rest, s, j, k);
    NumberAt(s, i, j, k, |n.digits|);
  }

  /** Without a digit behind white space and a sign there is no number. */
  lemma {:induction false} NothingRead(spaces: Text, sign: Text, rest: Text)
    requires (forall i :: 0 <= i < |spaces| ==> IsSpace(spaces[i])) && (sign == [] || sign == [PLUS] || sign == [MINUS])
    requires rest == [] || (!IsHex(rest[0]) && !IsSpace(rest[0]) && rest[0] != PLUS && rest[0] != MINUS)
    ensures Wcstoul(spaces + (sign + rest)) == Number(0, 0, false)
  {
    var s, tail := spaces + (sign + rest), sign + rest;
    SpacesFirst(spaces, tail);
    var i, j := |spaces|, |spaces| + |sign|;
    assert s == (spaces + sign) + rest;
    Behind(spaces, tail);
    Behind(spaces + sign, rest);
    assert tail != [] ==> s[i] == tail[0];
    assert rest != [] ==> s[j] == rest[0];
  }

  // ------------------------------------------------------------------------ lists

  predicate ByteNumeral(n: Numeral) {
    n.Valid() && n.Value() <= 0xFF
  }

  /** A byte and a comma: the list goes on behind the comma. */
  lemma {:induction false} ByteThenComma(n: Numeral, rest: Text)
    requires ByteNumeral(n)
    ensures DecodeCsv(n.Text() + [COMMA] + rest) == DecodeCsv(rest).(bytes := [n.Value()] + DecodeCsv(rest).bytes)
  {
    hide Wcstoul, HexNumber;
    var s := n.Text() + [COMMA] + rest;
    assert s == n.Text() + ([COMMA] + rest);
    NumeralRead(n, [COMMA] + rest);
    assert s[|n.Text()|] == COMMA && s[|n.Text()| + 1..] == rest;
    assert CsvContinues(s, Wcstoul(s));
  }

  /** A byte at the end of the text ends the list. */
  lemma {:induction false} ByteAtEnd(n: Numeral)
    requires ByteNumeral(n)
    ensures DecodeCsv(n.Text()) == Csv(true, [n.Value()], false, [], false)
  {
    hide Wcstoul, HexNumber;
    var s := n.Text();
    assert s + [] == s;
    NumeralRead(n, []);
    assert CsvContinues(s, Wcstoul(s));
    assert DecodeCsv(s) == DecodeCsv([]).(bytes := [n.Value()] + DecodeCsv([]).bytes);
  }

  /** A byte and anything else: only blanks and a comment leave the list good. */
  lemma {:induction false} ByteThenOther(n: Numeral, w: Text)
    requires ByteNumeral(n) && w != [] && Stops(w) && w[0] != COMMA
    ensures var e := SkipBlanks(w); DecodeCsv(n.Text() + w) == Csv(e == [] || e[0] == SEMICOLON, [n.Value()], false, [], false)
  {
    hide Wcstoul, HexNumber, SkipBlanks;
    var s := n.Text() + w;
    NumeralRead(n, w);
    assert s[|n.Text()|] == w[0] && s[|n.Text()|..] == w;
    assert !CsvContinues(s, Wcstoul(s));
  }

  /** A number that is no byte spoils the list; the bytes before it have been read. */
  lemma {:induction false} TooLarge(n: Numeral, rest: Text)
    requires n.Valid() && n.Value() > 0xFF && Stops(rest)
    ensures DecodeCsv(n.Text() + rest) == Csv(false, [], false, [], HexNumber(n.digits) >= UINT32)
  {
    hide Wcstoul, HexNumber;
    NumeralRead(n, rest);
    assert n.Text() + rest != [];
  }

  /** No number: blanks and a backslash carry the list over to the next line, a comment ends it, anything else spoils it. */
  lemma {:induction false} NoNumber(blanks: Text, rest: Text)
    requires Blanks(blanks) && rest != []
    requires !IsHex(rest[0]) && !IsSpace(rest[0]) && rest[0] != PLUS && rest[0] != MINUS
    ensures var csv := DecodeCsv(blanks + rest);
      && csv.bytes == [] && !csv.overflow && (csv.ok <==> rest[0] == BACKSLASH || rest[0] == SEMICOLON)
      && (csv.backslash <==> rest[0] == BACKSLASH) && (csv.backslash ==> csv.rest == rest[1..])
  {
    hide Wcstoul;
    assert blanks + rest == blanks + ([] + rest);
    NothingRead(blanks, [], rest);
    SkipThem(blanks, rest);
    assert (blanks + rest)[0..] == blanks + rest;
  }

  // ----------------------------------------------------------------------- whole lists

  function ListText(ns: seq<Numeral>): Text
    requires ns != []
  {
    if |ns| == 1 then ns[0].Text() else ns[0].Text() + [COMMA] + ListText(ns[1..])
  }

  predicate AllBytes(ns: seq<Numeral>) {
    forall n :: n in ns ==> ByteNumeral(n)
  }

  function Bytes(ns: seq<Numeral>): seq<Byte>
    requires AllBytes(ns)
  {
    if ns == [] then [] else
    assert ns[0] in ns && ByteNumeral(ns[0]);
    [ns[0].Value()] + Bytes(ns[1..])
  }

  /** Numerals of bytes with commas between them are read as those bytes. */
  lemma {:induction false} ListRead(ns: seq<Numeral>)
    requires ns != [] && AllBytes(ns)
    ensures DecodeCsv(ListText(ns)) == Csv(true, Bytes(ns), false, [], false)
  {
    hide DecodeCsv;
    if |ns| == 1 {
      ByteAtEnd(ns[0]);
      assert Bytes(ns) == [ns[0].Value()] + Bytes(ns[1..]);
    } else {
      ListRead(ns[1..]);
      ByteThenComma(ns[0], ListText(ns[1..]));
    }
  }
}
