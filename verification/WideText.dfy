/**
 UTF-16 text as the registry editor handles it: sequences of 16-bit code units,
 held in memory as NUL-terminated strings.
 */
module WideText {

  type WChar = x: int | 0 <= x <= 0xFFFF
  type Byte = x: int | 0 <= x <= 0xFF
  type Text = seq<WChar>

  datatype Option<+T> = None | Some(value: T)

  const NUL: WChar := 0
  const TAB: WChar := 9
  const LF: WChar := 10
  const CR: WChar := 13
  const SPACE: WChar := 32
  const QUOTE: WChar := 34
  const COMMA: WChar := 44
  const MINUS: WChar := 45
  const SEMICOLON: WChar := 59
  const EQUALS: WChar := 61
  const AT: WChar := 64
  const LBRACKET: WChar := 91
  const BACKSLASH: WChar := 92
  const RBRACKET: WChar := 93
  const CRLF: Text := [CR, LF]

  /** An ASCII string literal as wide text. */
  function Wide(s: string): (t: Text)
    ensures |t| == |s|
  {
    seq(|s|, i requires 0 <= i < |s| => (s[i] as int) % 0x1_0000)
  }

  predicate NulFree(t: Text) {
    NUL !in t
  }

  predicate IsBreak(c: WChar) {
    c == CR || c == LF
  }

  /** No carriage return and no line feed: the text stays on one line of a file. */
  predicate OneLine(t: Text) {
    CR !in t && LF !in t
  }

  lemma {:induction false} WidePrintable(s: string)
    requires forall i :: 0 <= i < |s| ==> ' ' <= s[i] <= '~'
    ensures OneLine(Wide(s)) && NulFree(Wide(s))
  {
    var t := Wide(s);
    assert forall i :: 0 <= i < |t| ==> t[i] == s[i] as int && 32 <= t[i];
  }

  /** The C string held by a buffer: everything before the first NUL. */
  function CString(t: Text): (s: Text)
    ensures NulFree(s) && s <= t
    ensures |s| < |t| ==> t[|s|] == NUL
    ensures NulFree(t) ==> s == t
  {
    if t == [] || t[0] == NUL then [] else [t[0]] + CString(t[1..])
  }

  predicate IsBlank(c: WChar) {
    c == SPACE || c == TAB
  }

  function SkipBlanks(t: Text): (r: Text)
    ensures |r| <= |t|
    ensures r == [] || !IsBlank(r[0])
    ensures |t| > 0 && !IsBlank(t[0]) ==> r == t
  {
    if t != [] && IsBlank(t[0]) then SkipBlanks(t[1..]) else t
  }

  predicate Blanks(t: Text) {
    forall i :: 0 <= i < |t| ==> IsBlank(t[i])
  }

  lemma {:induction false} SkipThem(blanks: Text, s: Text)
    requires Blanks(blanks) && (s == [] || !IsBlank(s[0]))
    ensures SkipBlanks(blanks + s) == s
  {
    if blanks == [] {
      assert blanks + s == s;
    } else {
      assert (blanks + s)[1..] == blanks[1..] + s;
      SkipThem(blanks[1..], s);
    }
  }

  function TrimRight(t: Text): (r: Text)
    ensures |r| <= |t|
    ensures |t| > 0 && !IsBlank(t[|t| - 1]) ==> r == t
  {
    if t != [] && IsBlank(t[|t| - 1]) then TrimRight(t[..|t| - 1]) else t
  }

  /** Case folding of the C locale, as _wcsicmp applies it. */
  function Fold(c: WChar): (r: WChar)
    ensures r == c || (0x61 <= c <= 0x7A && r == c - 32)
  {
    if 0x61 <= c <= 0x7A then c - 32 else c
  }

  /** The same letters folded the other way, as the order of _wcsicmp has them. */
  function Lower(c: WChar): WChar {
    if 0x41 <= c <= 0x5A then c + 32 else c
  }

  lemma {:induction false} LowerSame(a: WChar, b: WChar)
    ensures Lower(a) == Lower(b) <==> Fold(a) == Fold(b)
  {
  }

  /** The same character, or the two cases of one ASCII letter. */
  predicate SameLetter(a: WChar, b: WChar) {
    a == b || (0x61 <= a <= 0x7A && b == a - 32) || (0x61 <= b <= 0x7A && a == b - 32)
  }

  /** The same text up to the case of single letters. */
  predicate SameLetters(s: Text, t: Text) {
    |s| == |t| && forall i :: 0 <= i < |s| ==> SameLetter(s[i], t[i])
  }

  lemma {:induction false} FoldIs(s: Text, t: Text)
    ensures FoldText(s) == FoldText(t) <==> SameLetters(s, t)
  {
    if FoldText(s) == FoldText(t) {
      forall i | 0 <= i < |s| ensures SameLetter(s[i], t[i]) { assert FoldText(s)[i] == FoldText(t)[i]; }
    }
    if SameLetters(s, t) {
      forall i | 0 <= i < |s| ensures FoldText(s)[i] == FoldText(t)[i] { assert SameLetter(s[i], t[i]); }
    }
  }

  function FoldText(t: Text): (r: Text)
    ensures |r| == |t|
    ensures forall i :: 0 <= i < |t| ==> r[i] == Fold(t[i])
  {
    seq(|t|, i requires 0 <= i < |t| => Fold(t[i]))
  }

  function Word(lo: Byte, hi: Byte): (w: WChar)
    ensures w % 256 == lo && w / 256 == hi
  {
    lo as int + 256 * hi as int
  }

  /** Little-endian bytes of a string, as they lie in memory. */
  function ToBytes(t: Text): (b: seq<Byte>)
    ensures |b| == 2 * |t|
  {
    if t == [] then [] else [t[0] % 256, t[0] / 256] + ToBytes(t[1..])
  }

  /** The complete code units stored in a byte string; an odd trailing byte belongs to none. */
  function FromBytes(b: seq<Byte>): (t: Text)
    ensures |t| == |b| / 2
  {
    if |b| < 2 then [] else [Word(b[0], b[1])] + FromBytes(b[2..])
  }

  lemma {:induction false} FromToBytes(t: Text)
    ensures FromBytes(ToBytes(t)) == t
  {
    if t != [] {
      FromToBytes(t[1..]);
      assert ToBytes(t)[2..] == ToBytes(t[1..]);
      assert Word(t[0] % 256, t[0] / 256) == t[0];
    }
  }

  lemma {:induction false} ToFromBytes(b: seq<Byte>)
    requires |b| % 2 == 0
    ensures ToBytes(FromBytes(b)) == b
  {
    if b != [] {
      ToFromBytes(b[2..]);
      assert FromBytes(b)[1..] == FromBytes(b[2..]);
      assert b == [b[0], b[1]] + b[2..];
    }
  }

  lemma {:induction false} ToBytesConcat(a: Text, b: Text)
    ensures ToBytes(a + b) == ToBytes(a) + ToBytes(b)
  {
    if a == [] {
      assert a + b == b;
    } else {
      assert (a + b)[1..] == a[1..] + b;
      ToBytesConcat(a[1..], b);
    }
  }

  lemma {:induction false} FromBytesConcat(a: seq<Byte>, b: seq<Byte>)
    requires |a| % 2 == 0
    ensures FromBytes(a + b) == FromBytes(a) + FromBytes(b)
  {
    hide Word;
    if a == [] {
      assert a + b == b;
    } else {
      assert (a + b)[2..] == a[2..] + b;
      FromBytesConcat(a[2..], b);
    }
  }

  // -------------------------------------------------------------- 32-bit numbers

  const UINT32: nat := 0x1_0000_0000

  /** The bytes of a 32-bit number, little end first. */
  function Little(x: nat): (b: seq<Byte>)
    requires x < UINT32
    ensures |b| == 4
  {
    [x % 0x100, x / 0x100 % 0x100, x / 0x1_0000 % 0x100, x / 0x100_0000]
  }

  lemma {:induction false} Quarters(x: nat)
    ensures x == x % 0x100 + 0x100 * (x / 0x100 % 0x100) + 0x1_0000 * (x / 0x1_0000 % 0x100) + 0x100_0000 * (x / 0x100_0000)
  {
    var y := x / 0x100;
    var z := y / 0x100;
    assert z == x / 0x1_0000 && z / 0x100 == x / 0x100_0000;
  }
}
