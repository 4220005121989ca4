/**
 The registry editor's hex control, keyboard and commands in the hex field: a byte buffer
 with a caret, a selection, a half-typed byte and a clipboard.
 */
module HexEdit {
  import opened WideText
  import HexCodec

  const COLUMNS: nat := 8

  datatype State = State(buf: seq<Byte>, index: nat, selStart: nat, selEnd: nat, inMid: bool, max: nat,
                         clip: Option<seq<Byte>>)

  function Lo(s: State): nat { if s.selStart < s.selEnd then s.selStart else s.selEnd }

  function Hi(s: State): nat { if s.selStart < s.selEnd then s.selEnd else s.selStart }

  predicate Selected(s: State) { s.selStart != s.selEnd }

  /** Caret and selection inside the buffer; a half-typed byte exists; an empty selection is not after the caret. */
  predicate Inv(s: State) {
    && s.index <= |s.buf| && s.selStart <= |s.buf| && s.selEnd <= |s.buf|
    && (s.inMid ==> s.index < |s.buf|)
    && (s.selStart == s.selEnd ==> s.selStart <= s.index)
  }

  // ------------------------------------------------------------------- hex digits

  /** The character is narrowed to a byte before it is looked at. */
  predicate IsDigit(wch: WChar) {
    HexCodec.IsHex(wch % 256)
  }

  function DigitValue(wch: WChar): (r: nat)
    requires IsDigit(wch)
    ensures r < 16
  {
    HexCodec.HexValue(wch % 256)
  }

  /** a | b for numbers below a power of two m */
  function Or(a: nat, b: nat, m: nat): (r: nat)
    requires a < m && b < m && (m == 1 || m == 2 || m == 4 || m == 8 || m == 16)
    ensures r < m
    decreases m
  {
    if m == 1 then 0 else (if a % 2 == 1 || b % 2 == 1 then 1 else 0) + 2 * Or(a / 2, b / 2, m / 2)
  }

  lemma {:induction false} OrZero(b: nat, m: nat)
    requires b < m && (m == 1 || m == 2 || m == 4 || m == 8 || m == 16)
    ensures Or(0, b, m) == b
    decreases m
  {
    if m > 1 { OrZero(b / 2, m / 2); }
  }

  /** b | digit */
  function OrDigit(b: Byte, digit: nat): (r: Byte)
    requires digit < 16
  {
    b / 16 * 16 + Or(b % 16, digit, 16)
  }

  lemma {:induction false} OrDigitFresh(high: nat, digit: nat)
    requires high < 16 && digit < 16
    ensures OrDigit(high * 16, digit) == high * 16 + digit
  {
    var b := high * 16;
    SixteenTimes(high);
    OrZero(digit, 16);
    assert Or(b % 16, digit, 16) == digit;
  }

  lemma {:induction false} SixteenTimes(n: nat)
    ensures n * 16 % 16 == 0 && n * 16 / 16 == n
  {
  }

  // ------------------------------------------------------------------- operations

  function Insert(b: seq<Byte>, i: nat, bytes: seq<Byte>): (r: seq<Byte>)
    requires i <= |b|
    ensures |r| == |b| + |bytes|
  {
    b[..i] + bytes + b[i..]
  }

  function Remove(b: seq<Byte>, i: nat, j: nat): (r: seq<Byte>)
    requires i <= j <= |b|
    ensures |r| == |b| - (j - i)
  {
    b[..i] + b[j..]
  }

  /** Removal of the selection, if there is one: the caret goes where it was. */
  function DropSelection(s: State): (r: State)
    requires Inv(s)
    ensures Inv(r) && !Selected(r)
  {
    if !Selected(s) then s else
    var b := Remove(s.buf, Lo(s), Hi(s));
    State(b, Lo(s), Lo(s), Lo(s), false, |b|, s.clip)
  }

  function WithBuffer(s: State, b: seq<Byte>): State {
    s.(buf := b, max := |b|)
  }

  function Copy(s: State): (r: State)
    requires Inv(s)
    ensures Inv(r)
  {
    if Selected(s) then s.(clip := Some(s.buf[Lo(s)..Hi(s)])) else s
  }

  function Cut(s: State): (r: State)
    requires Inv(s)
    ensures Inv(r)
  {
    DropSelection(Copy(s))
  }

  /** The caret stays in front of what is pasted. */
  function Paste(s: State): (r: State)
    requires Inv(s)
    ensures Inv(r)
  {
    var d := DropSelection(s);
    if d.clip.None? then d else WithBuffer(d, Insert(d.buf, d.index, d.clip.value))
  }

  function SelectAll(s: State): (r: State)
    requires Inv(s)
    ensures Inv(r)
  {
    s.(index := 0, selStart := 0, selEnd := |s.buf|)
  }

  /** A hex digit: replaces the selection, then begins a byte or completes the one begun. */
  function Type(s: State, wch: WChar): (r: State)
    requires Inv(s)
    ensures Inv(r)
  {
    if !IsDigit(wch) then s else
    var d, v := DropSelection(s), DigitValue(wch);
    if d.inMid then d.(buf := d.buf[d.index := OrDigit(d.buf[d.index], v)], inMid := false, index := d.index + 1)
    else WithBuffer(d, Insert(d.buf, d.index, [v * 16])).(inMid := true)
  }

  function DeleteKey(s: State): (r: State)
    requires Inv(s)
    ensures Inv(r)
  {
    if Selected(s) then DropSelection(s)
    else if s.inMid || s.index < |s.buf| then WithBuffer(s, Remove(s.buf, s.index, s.index + 1)).(inMid := false)
    else s
  }

  function BackKey(s: State): (r: State)
    requires Inv(s)
    ensures Inv(r)
  {
    if Selected(s) then DropSelection(s)
    else if s.inMid then WithBuffer(s, Remove(s.buf, s.index, s.index + 1)).(inMid := false)
    else if s.index > 0 then
      var i := s.index - 1;
      WithBuffer(s, Remove(s.buf, i, i + 1)).(index := i, selStart := i, selEnd := i)
    else s
  }

  /** The caret moves; with shift it drags the end of the selection along. */
  function MoveTo(s: State, i: nat, shift: bool): (r: State)
    requires Inv(s) && i <= |s.buf|
    ensures Inv(r)
  {
    s.(index := i, selStart := if shift then s.selStart else i, selEnd := i, inMid := false)
  }

  datatype Arrow = Left | Right | Up | Down

  function Move(s: State, a: Arrow, shift: bool): (r: State)
    requires Inv(s)
    ensures Inv(r)
  {
    match a
    case Left => if s.index > 0 then MoveTo(s, s.index - 1, shift) else s
    case Right => if s.index < |s.buf| then MoveTo(s, s.index + 1, shift) else s
    case Up => if s.index >= COLUMNS then MoveTo(s, s.index - COLUMNS, shift) else s
    case Down => MoveTo(s, if s.index + COLUMNS <= |s.buf| then s.index + COLUMNS else |s.buf|, shift)
  }

  datatype Event =
    | Char(wch: WChar) | Delete(shift: bool, ctrl: bool) | Back | ArrowKey(arrow: Arrow, shift: bool)
    | InsertKey(shift: bool, ctrl: bool)
    | CutCommand | CopyCommand | PasteCommand | DeleteCommand | SelectAllCommand

  function Step(s: State, e: Event): (r: State)
    requires Inv(s)
    ensures Inv(r)
  {
    match e
    case Char(wch) => Type(s, wch)
    case Delete(shift, ctrl) => DeleteKey(if shift && !ctrl then Copy(s) else s)
    case Back => BackKey(s)
    case ArrowKey(a, shift) => Move(s, a, shift)
    case InsertKey(shift, ctrl) =>
      if !shift && ctrl then Copy(s) else if shift && !ctrl then Paste(s) else s
    case CutCommand => Cut(s)
    case CopyCommand => Copy(s)
    case PasteCommand => Paste(s)
    case DeleteCommand => DropSelection(s)
    case SelectAllCommand => SelectAll(s)
  }

  /** Any run of keys and commands; its postcondition is the invariant at every point of the run. */
  function Run(s: State, es: seq<Event>): (r: State)
    requires Inv(s)
    ensures Inv(r)
    decreases |es|
  {
    if es == [] then s else Run(Step(s, es[0]), es[1..])
  }

  // --------------------------------------------------------------------- typing bytes

  function TypeAll(s: State, digits: seq<WChar>): (r: State)
    requires Inv(s)
    ensures Inv(r)
    decreases |digits|
  {
    if digits == [] then s else TypeAll(Type(s, digits[0]), digits[1..])
  }

  predicate AllDigits(digits: seq<WChar>) {
    digits == [] || (IsDigit(digits[0]) && AllDigits(digits[1..]))
  }

  lemma {:induction false} TwoDigits(digits: seq<WChar>)
    requires AllDigits(digits) && |digits| >= 2
    ensures IsDigit(digits[0]) && IsDigit(digits[1]) && AllDigits(digits[2..])
  {
    assert digits[1..][0] == digits[1] && digits[1..][1..] == digits[2..];
  }

  /** The bytes that pairs of digits denote. */
  function BytesOf(digits: seq<WChar>): (r: seq<Byte>)
    requires AllDigits(digits) && |digits| % 2 == 0
    ensures |r| == |digits| / 2
  {
    if digits == [] then [] else FirstByte(digits) + (TwoDigits(digits); BytesOf(digits[2..]))
  }

  predicate Ready(s: State) {
    Inv(s) && !Selected(s) && !s.inMid
  }

  /** Two digits insert one byte and step over it. */
  lemma {:induction false} TypeByte(s: State, a: WChar, b: WChar)
    requires Ready(s) && IsDigit(a) && IsDigit(b)
    ensures var r := Type(Type(s, a), b); var byte := DigitValue(a) * 16 + DigitValue(b);
      r == WithBuffer(s, Insert(s.buf, s.index, [byte])).(index := s.index + 1) && Ready(r)
  {
    var half := Type(s, a);
    assert half.buf[s.index] == DigitValue(a) * 16;
    OrDigitFresh(DigitValue(a), DigitValue(b));
    assert half.buf[s.index := DigitValue(a) * 16 + DigitValue(b)]
        == Insert(s.buf, s.index, [DigitValue(a) * 16 + DigitValue(b)]);
  }

  lemma {:induction false} InsertTwice(b: seq<Byte>, i: nat, x: seq<Byte>, y: seq<Byte>)
    requires i <= |b|
    ensures Insert(Insert(b, i, x), i + |x|, y) == Insert(b, i, x + y)
  {
    assert Insert(b, i, x)[..i + |x|] == b[..i] + x && Insert(b, i, x)[i + |x|..] == b[i..];
  }

  /** These bytes were inserted at the caret, which now stands behind them. */
  predicate Typed(s: State, bytes: seq<Byte>, r: State)
    requires Ready(s)
  {
    && Ready(r) && r.buf == Insert(s.buf, s.index, bytes) && r.index == s.index + |bytes|
    && r.selStart == s.selStart && r.selEnd == s.selEnd && r.clip == s.clip
  }

  lemma {:induction false} TypedTwice(s: State, x: seq<Byte>, m: State, y: seq<Byte>, r: State)
    requires Ready(s) && Typed(s, x, m) && Typed(m, y, r)
    ensures Typed(s, x + y, r)
  {
    InsertTwice(s.buf, s.index, x, y);
  }

  function FirstByte(digits: seq<WChar>): seq<Byte>
    requires AllDigits(digits) && |digits| >= 2
  {
    TwoDigits(digits);
    [DigitValue(digits[0]) * 16 + DigitValue(digits[1])]
  }

  /** Typing these digits leads to this state. */
  predicate Leads(s: State, digits: seq<WChar>, end: State) {
    Inv(s) && TypeAll(s, digits) == end
  }

  lemma {:induction false} LeadsOne(s: State, wch: WChar, rest: seq<WChar>, digits: seq<WChar>, end: State)
    requires Leads(s, digits, end) && digits != [] && wch == digits[0] && rest == digits[1..]
    ensures Leads(Type(s, wch), rest, end)
  {
  }

  lemma {:induction false} TypeFirst(s: State, digits: seq<WChar>, end: State) returns (one: State)
    requires Ready(s) && AllDigits(digits) && |digits| >= 2 && Leads(s, digits, end)
    ensures Ready(one) && Typed(s, FirstByte(digits), one) && Leads(one, digits[2..], end)
  {
    hide Leads, Typed;
    TwoDigits(digits);
    one := TypeTwo(s, digits[0], digits[1]);
    assert digits[1..][0] == digits[1] && digits[1..][1..] == digits[2..];
    LeadsOne(s, digits[0], digits[1..], digits, end);
    LeadsOne(Type(s, digits[0]), digits[1], digits[2..], digits[1..], end);
  }

  lemma {:induction false} TypeTwo(s: State, a: WChar, b: WChar) returns (one: State)
    requires Ready(s) && IsDigit(a) && IsDigit(b)
    ensures one == Type(Type(s, a), b) && Typed(s, [DigitValue(a) * 16 + DigitValue(b)], one)
  {
    TypeByte(s, a, b);
    one := Type(Type(s, a), b);
  }

  /** Typing 2k digits inserts exactly the k bytes they denote at the caret. */
  lemma {:induction false} TypeBytes(s: State, digits: seq<WChar>, end: State)
    requires Ready(s) && AllDigits(digits) && |digits| % 2 == 0 && Leads(s, digits, end)
    ensures Typed(s, BytesOf(digits), end)
    decreases |digits|
  {
    if digits == [] {
      assert Insert(s.buf, s.index, []) == s.buf;
    } else {
      TwoDigits(digits);
      var one := TypeFirst(s, digits, end);
      TypeBytes(one, digits[2..], end);
      TypedTwice(s, FirstByte(digits), one, BytesOf(digits[2..]), end);
    }
  }

  // -------------------------------------------------------------------- undoing edits

  lemma {:induction false} RemoveInsert(b: seq<Byte>, i: nat, x: seq<Byte>)
    requires i <= |b|
    ensures Remove(Insert(b, i, x), i, i + |x|) == b
  {
    assert Insert(b, i, x)[..i] == b[..i] && Insert(b, i, x)[i + |x|..] == b[i..];
  }

  /** Backspace takes back a whole byte just typed, or the half of one. */
  lemma {:induction false} BackUndoesTyping(s: State, a: WChar, b: WChar)
    requires Ready(s) && IsDigit(a) && IsDigit(b)
    ensures BackKey(Type(s, a)).buf == s.buf && BackKey(Type(s, a)).index == s.index
    ensures var r := BackKey(Type(Type(s, a), b)); r.buf == s.buf && r.index == s.index
  {
    RemoveInsert(s.buf, s.index, [DigitValue(a) * 16]);
    TypeByte(s, a, b);
    RemoveInsert(s.buf, s.index, [DigitValue(a) * 16 + DigitValue(b)]);
  }

  /** Cut and then Paste restores the bytes. */
  lemma {:induction false} CutPaste(s: State)
    requires Inv(s) && Selected(s)
    ensures Paste(Cut(s)).buf == s.buf && Cut(s).clip == Some(s.buf[Lo(s)..Hi(s)])
  {
    var i, j := Lo(s), Hi(s);
    assert Insert(Remove(s.buf, i, j), i, s.buf[i..j]) == s.buf by {
      assert Remove(s.buf, i, j)[..i] == s.buf[..i] && Remove(s.buf, i, j)[i..] == s.buf[j..];
      assert s.buf[..i] + s.buf[i..j] + s.buf[j..] == s.buf;
    }
  }

  // ---------------------------------------------------------------- loading a buffer

  /** HEM_LOADBUFFER: the bytes are cut at the maximum, and only the caret is reset. */
  function Load(s: State, bytes: seq<Byte>): State {
    var kept := if s.max > 0 && |bytes| > s.max then bytes[..s.max] else bytes;
    if bytes == [] && s.buf == [] then s else s.(buf := kept, index := 0)
  }

  /** Loading keeps the control in order exactly when nothing of the old editing state points past the new bytes. */
  lemma {:induction false} LoadKeeps(s: State, bytes: seq<Byte>)
    requires Inv(s)
    ensures var size := if s.max > 0 && |bytes| > s.max then s.max else |bytes|;
      Inv(Load(s, bytes)) <==>
        if Selected(s) then s.selStart <= size && s.selEnd <= size && (s.inMid ==> size > 0)
        else s.selStart == 0 && (s.inMid ==> size > 0)
  {
  }

  /** Everything is loaded exactly when no smaller maximum was left by earlier edits. */
  lemma {:induction false} LoadComplete(s: State, bytes: seq<Byte>)
    ensures Load(s, bytes).buf == bytes <==> s.max == 0 || |bytes| <= s.max
  {
  }

  /** After one edit the maximum is the size of the buffer, so a longer one no longer loads. */
  lemma {:induction false} LoadAfterEdit(s: State, wch: WChar, bytes: seq<Byte>)
    requires Ready(s) && IsDigit(wch)
    ensures Load(Type(s, wch), bytes).buf == bytes <==> |bytes| <= |s.buf| + 1
  {
    LoadComplete(Type(s, wch), bytes);
  }

  /** A selection left over from a longer buffer: after the load it reaches past the end. */
  lemma {:induction false} LoadExample()
    ensures var s := SelectAll(State([1, 2, 3], 0, 0, 0, false, 0, None));
      Inv(s) && !Inv(Load(s, [9]))
  {
  }

  // ---------------------------------------------------------------------- the control

  lemma {:induction false} GrownParts(was: seq<Byte>, grown: seq<Byte>, i: nat)
    requires i <= |was| <= |grown| && grown[..|was|] == was
    ensures grown[..i] == was[..i] && grown[i..|was|] == was[i..]
  {
    assert grown[..i] == grown[..|was|][..i] && grown[i..|was|] == grown[..|was|][i..];
  }

  class Control {
    var buf: seq<Byte>
    var index: nat
    var selStart: nat
    var selEnd: nat
    var inMid: bool
    var max: nat
    var clip: Option<seq<Byte>>

    ghost function S(): State
      reads this
    {
      State(buf, index, selStart, selEnd, inMid, max, clip)
    }

    constructor (clip: Option<seq<Byte>>)
      ensures S() == State([], 0, 0, 0, false, 0, clip) && Inv(S())
    {
      buf, index, selStart, selEnd, inMid, max, this.clip := [], 0, 0, 0, false, 0, clip;
    }

    /** HEM_SETMAXBUFFERSIZE: the memory is resized; what it holds past the old end is unknown. */
    method SetMaxBufferSize(n: nat, garbage: Byte)
      modifies this`buf, this`max
      ensures max == n && |buf| == n
      ensures n <= |old(buf)| ==> buf == old(buf)[..n]
      ensures n > |old(buf)| ==> buf[..|old(buf)|] == old(buf)
    {
      max := n;
      if n <= |buf| {
        buf := buf[..n];
      } else {
        buf := buf + seq(n - |buf|, _ => garbage);
      }
    }

    /** MoveMemory inside the buffer; the ranges may overlap. */
    method MoveMemory(to: nat, from: nat, n: nat)
      requires to + n <= |buf| && from + n <= |buf|
      modifies this`buf
      ensures |buf| == |old(buf)| && buf == old(buf)[..to] + old(buf)[from..from + n] + old(buf)[to + n..]
    {
      buf := buf[..to] + buf[from..from + n] + buf[to + n..];
    }

    /** Shift down over the bytes from i to j, then shrink. */
    method RemoveBytes(i: nat, j: nat, garbage: Byte)
      requires i <= j <= |buf|
      modifies this`buf, this`max
      ensures buf == Remove(old(buf), i, j) && max == |buf|
    {
      var size := |buf|;
      MoveMemory(i, j, size - j);
      SetMaxBufferSize(size - (j - i), garbage);
    }

    /** Grow, shift up, then copy in: nothing of the unknown memory remains. */
    method InsertBytes(bytes: seq<Byte>, garbage: Byte)
      requires index <= |buf|
      modifies this`buf, this`max
      ensures buf == Insert(old(buf), index, bytes) && max == |buf|
    {
      var size := |buf|;
      ghost var was := buf;
      SetMaxBufferSize(size + |bytes|, garbage);
      GrownParts(was, buf, index);
      MoveMemory(index + |bytes|, index, size - index);
      buf := buf[..index] + bytes + buf[index + |bytes|..];
    }

    /** HEXEDIT_Delete */
    method DeleteSelection(garbage: Byte)
      requires Inv(S())
      modifies this`buf, this`max, this`index, this`selStart, this`selEnd, this`inMid
      ensures S() == DropSelection(old(S()))
    {
      var i0, i1 := selEnd, selStart;
      if selStart < selEnd { i0, i1 := selStart, selEnd; }
      if i0 != i1 {
        RemoveBytes(i0, i1, garbage);
        inMid := false;
        index, selStart, selEnd := i0, i0, i0;
      }
    }

    /** HEXEDIT_Copy */
    method CopySelection()
      requires Inv(S())
      modifies this`clip
      ensures S() == Copy(old(S()))
    {
      var i0, i1 := selEnd, selStart;
      if selStart < selEnd { i0, i1 := selStart, selEnd; }
      if i1 - i0 == 0 { return; }
      clip := Some(buf[i0..i1]);
    }

    /** HEXEDIT_Paste */
    method PasteClip(garbage: Byte)
      requires Inv(S())
      modifies this`buf, this`max, this`index, this`selStart, this`selEnd, this`inMid
      ensures S() == Paste(old(S()))
    {
      DeleteSelection(garbage);
      if clip.Some? { InsertBytes(clip.value, garbage); }
    }

    /** HEXEDIT_WM_CHAR in the hex field */
    method OnChar(wch: WChar, garbage: Byte) returns (unused: bool)
      requires Inv(S())
      modifies this`buf, this`max, this`index, this`selStart, this`selEnd, this`inMid
      ensures S() == Type(old(S()), wch) && unused == !IsDigit(wch)
    {
      if !IsDigit(wch) { return true; }
      DeleteSelection(garbage);
      if inMid {
        buf := buf[index := OrDigit(buf[index], DigitValue(wch))];
        inMid := false;
        index := index + 1;
      } else {
        InsertBytes([DigitValue(wch) * 16], garbage);
        inMid := true;
      }
      return false;
    }

    /** VK_DELETE */
    method OnDelete(shift: bool, ctrl: bool, garbage: Byte)
      requires Inv(S())
      modifies this
      ensures S() == Step(old(S()), Delete(shift, ctrl))
    {
      if shift && !ctrl && selStart != selEnd { CopySelection(); }
      if selStart != selEnd {
        DeleteSelection(garbage);
      } else if inMid {
        RemoveBytes(index, index + 1, garbage);
        inMid := false;
      } else if index < |buf| {
        RemoveBytes(index, index + 1, garbage);
      }
    }

    /** VK_BACK */
    method OnBack(garbage: Byte)
      requires Inv(S())
      modifies this`buf, this`max, this`index, this`selStart, this`selEnd, this`inMid
      ensures S() == BackKey(old(S()))
    {
      if selStart != selEnd {
        DeleteSelection(garbage);
      } else if inMid {
        RemoveBytes(index, index + 1, garbage);
        inMid := false;
      } else if index > 0 {
        RemoveBytes(index - 1, index, garbage);
        index := index - 1;
        selStart, selEnd := index, index;
      }
    }

    /** The arrow keys */
    method OnArrow(a: Arrow, shift: bool)
      requires Inv(S())
      modifies this`index, this`selStart, this`selEnd, this`inMid
      ensures S() == Move(old(S()), a, shift)
    {
      match a {
        case Left =>
          if index == 0 { return; }
          index := index - 1;
        case Right =>
          if index == |buf| { return; }
          index := index + 1;
        case Up =>
          if index < COLUMNS { return; }
          index := index - COLUMNS;
        case Down =>
          index := if index + COLUMNS <= |buf| then index + COLUMNS else |buf|;
      }
      if shift {
        selEnd := index;
      } else {
        selStart, selEnd := index, index;
      }
      inMid := false;
    }

    /** VK_INSERT */
    method OnInsert(shift: bool, ctrl: bool, garbage: Byte)
      requires Inv(S())
      modifies this
      ensures S() == Step(old(S()), InsertKey(shift, ctrl))
    {
      if selStart != selEnd {
        if !shift && ctrl { CopySelection(); }
      }
      if shift && !ctrl { PasteClip(garbage); }
    }

    /** HEXEDIT_SelectAll */
    method SelectEverything()
      requires Inv(S())
      modifies this`index, this`selStart, this`selEnd
      ensures S() == SelectAll(old(S()))
    {
      index, selStart := 0, 0;
      selEnd := |buf|;
    }

    /** Any key or command in the hex field */
    method Handle(e: Event, garbage: Byte)
      requires Inv(S())
      modifies this
      ensures S() == Step(old(S()), e) && Inv(S())
    {
      match e {
        case Char(wch) => var _ := OnChar(wch, garbage);
        case Delete(shift, ctrl) => OnDelete(shift, ctrl, garbage);
        case Back => OnBack(garbage);
        case ArrowKey(a, shift) => OnArrow(a, shift);
        case InsertKey(shift, ctrl) => OnInsert(shift, ctrl, garbage);
        case CutCommand =>
          CopySelection();
          DeleteSelection(garbage);
        case CopyCommand => CopySelection();
        case PasteCommand => PasteClip(garbage);
        case DeleteCommand => DeleteSelection(garbage);
        case SelectAllCommand => SelectEverything();
      }
    }

    /** HEXEDIT_HEM_LOADBUFFER */
    method LoadBuffer(bytes: seq<Byte>) returns (loaded: nat)
      requires Inv(S())
      modifies this`buf, this`index
      ensures S() == Load(old(S()), bytes) && (bytes != [] ==> loaded == |buf|)
    {
      loaded := 0;
      if bytes != [] {
        loaded := if max > 0 && |bytes| > max then max else |bytes|;
        buf := bytes[..loaded];
        index := 0;
      } else if buf != [] {
        index := 0;
        buf := [];
      }
    }
  }
}
