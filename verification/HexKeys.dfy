/**
 What each key and command of the hex control does, byte by byte: which bytes go, which
 come, where the caret stands and what is selected afterwards.
 */
module HexKeys {
  import opened WideText
  import opened HexEdit

  /** b is a without the bytes from i to j. */
  ghost predicate Without(a: seq<Byte>, i: nat, j: nat, b: seq<Byte>) {
    && i <= j <= |a| && |b| == |a| - (j - i)
    && (forall k :: 0 <= k < i ==> b[k] == a[k])
    && (forall k :: i <= k < |b| ==> b[k] == a[k + (j - i)])
  }

  /** b is a with the bytes put in before position i. */
  ghost predicate With(a: seq<Byte>, i: nat, bytes: seq<Byte>, b: seq<Byte>) {
    && i <= |a| && |b| == |a| + |bytes|
    && (forall k :: 0 <= k < i ==> b[k] == a[k])
    && (forall k :: 0 <= k < |bytes| ==> b[i + k] == bytes[k])
    && (forall k :: i <= k < |a| ==> b[k + |bytes|] == a[k])
  }

  /** The two ends of the selection, in order. */
  ghost predicate Ends(s: State, lo: nat, hi: nat) {
    lo < hi && ((s.selStart == lo && s.selEnd == hi) || (s.selStart == hi && s.selEnd == lo))
  }

  lemma {:induction false} EndsAre(s: State, lo: nat, hi: nat)
    requires Ends(s, lo, hi)
    ensures Selected(s) && Lo(s) == lo && Hi(s) == hi
  {
  }

  lemma {:induction false} RemoveIs(b: seq<Byte>, i: nat, j: nat)
    requires i <= j <= |b|
    ensures Without(b, i, j, Remove(b, i, j))
  {
  }

  lemma {:induction false} InsertIs(b: seq<Byte>, i: nat, bytes: seq<Byte>)
    requires i <= |b|
    ensures With(b, i, bytes, Insert(b, i, bytes))
  {
  }

  // ------------------------------------------------------------------- deleting

  /** With a selection, Delete, Back and the delete command remove it and the caret goes where it was. */
  ghost predicate SelectionGone(s: State, lo: nat, hi: nat, r: State) {
    Without(s.buf, lo, hi, r.buf) && r.index == lo && r.selStart == lo && r.selEnd == lo && !r.inMid
  }

  lemma {:induction false} DeleteSelection(s: State, lo: nat, hi: nat, shift: bool, ctrl: bool)
    requires Inv(s) && Ends(s, lo, hi)
    ensures SelectionGone(s, lo, hi, Step(s, Back)) && Step(s, Back).clip == s.clip
    ensures SelectionGone(s, lo, hi, Step(s, DeleteCommand)) && Step(s, DeleteCommand).clip == s.clip
    ensures SelectionGone(s, lo, hi, Step(s, Delete(shift, ctrl)))
    ensures Step(s, Delete(shift, ctrl)).clip == if shift && !ctrl then Some(s.buf[lo..hi]) else s.clip
    ensures SelectionGone(s, lo, hi, Step(s, CutCommand)) && Step(s, CutCommand).clip == Some(s.buf[lo..hi])
  {
    hide Without;
    EndsAre(s, lo, hi);
    RemoveIs(s.buf, lo, hi);
  }

  /** Without one, Delete removes the byte at the caret, which stays; at the end it does nothing. */
  lemma {:induction false} DeleteAtCaret(s: State, shift: bool, ctrl: bool)
    requires Inv(s) && s.selStart == s.selEnd
    ensures var r := Step(s, Delete(shift, ctrl));
      if s.index < |s.buf| then
        Without(s.buf, s.index, s.index + 1, r.buf) && r.index == s.index && !r.inMid
        && r.selStart == s.selStart && r.selEnd == s.selEnd && r.clip == s.clip
      else r == s
  {
    hide Without;
    if s.index < |s.buf| { RemoveIs(s.buf, s.index, s.index + 1); }
  }

  /** Without a selection, Back removes the half-typed byte, or else the byte before the caret. */
  lemma {:induction false} BackAtCaret(s: State)
    requires Inv(s) && s.selStart == s.selEnd
    ensures var r := Step(s, Back);
      && r.clip == s.clip
      && (s.inMid ==> Without(s.buf, s.index, s.index + 1, r.buf) && r.index == s.index && !r.inMid)
      && (!s.inMid && s.index > 0 ==>
            Without(s.buf, s.index - 1, s.index, r.buf) && r.index == s.index - 1 && r.selStart == r.selEnd == r.index)
      && (!s.inMid && s.index == 0 ==> r == s)
  {
    hide Without;
    if s.inMid {
      RemoveIs(s.buf, s.index, s.index + 1);
    } else if s.index > 0 {
      RemoveIs(s.buf, s.index - 1, s.index);
    }
  }

  // --------------------------------------------------------------------- moving

  /** Where an arrow leads from position i of a buffer of n bytes, in rows of eight. */
  ghost predicate LeadsTo(i: nat, n: nat, a: Arrow, j: nat) {
    match a
    case Left => if i == 0 then j == 0 else j == i - 1
    case Right => if i == n then j == n else j == i + 1
    case Up => if i < 8 then j == i else j == i - 8
    case Down => j <= n && j <= i + 8 && (j == n || j == i + 8)
  }

  /** An arrow moves the caret and nothing else but the selection, which follows it or, with shift, is dragged to it. */
  lemma {:induction false} ArrowMoves(s: State, a: Arrow, shift: bool)
    requires Inv(s)
    ensures var r := Step(s, ArrowKey(a, shift));
      && r.buf == s.buf && r.clip == s.clip && r.max == s.max && LeadsTo(s.index, |s.buf|, a, r.index)
      && (r.index != s.index ==> r.selEnd == r.index && r.selStart == (if shift then s.selStart else r.index) && !r.inMid)
      && (r.index == s.index && a != Down ==> r == s)
  {
  }

  // --------------------------------------------------------------- typing and pasting

  /** A digit typed over a selection, or with none begun, puts in a byte with that digit in its high half. */
  lemma {:induction false} DigitBegins(s: State, wch: WChar, cleared: seq<Byte>, at: nat)
    requires Inv(s) && IsDigit(wch)
    requires if Selected(s) then at == Lo(s) && Without(s.buf, Lo(s), Hi(s), cleared)
      else at == s.index && cleared == s.buf && !s.inMid
    ensures var r := Step(s, Char(wch));
      With(cleared, at, [DigitValue(wch) * 16], r.buf) && r.index == at && r.inMid && r.clip == s.clip
  {
    hide With;
    if Selected(s) {
      RemoveIs(s.buf, Lo(s), Hi(s));
      assert cleared == Remove(s.buf, Lo(s), Hi(s));
    }
    InsertIs(cleared, at, [DigitValue(wch) * 16]);
  }

  /** A second digit completes the byte at the caret and steps over it. */
  lemma {:induction false} DigitCompletes(s: State, wch: WChar, high: nat)
    requires Inv(s) && IsDigit(wch) && s.selStart == s.selEnd && s.inMid && high < 16 && s.buf[s.index] == high * 16
    ensures Step(s, Char(wch)) == s.(buf := s.buf[s.index := high * 16 + DigitValue(wch)], inMid := false, index := s.index + 1)
  {
    OrDigitFresh(high, DigitValue(wch));
  }

  /** The ten digits and the letters from a to f in either case, and only these, are digits; the high byte is ignored. */
  lemma {:induction false} DigitIs(c: nat, high: nat)
    requires c < 256 && high < 256
    ensures IsDigit(high * 256 + c) <==> 0x30 <= c < 0x3A || 0x41 <= c < 0x47 || 0x61 <= c < 0x67
    ensures 0x30 <= c < 0x3A ==> DigitValue(high * 256 + c) == c - 0x30
    ensures 0x41 <= c < 0x47 ==> DigitValue(high * 256 + c) == 10 + (c - 0x41)
    ensures 0x61 <= c < 0x67 ==> DigitValue(high * 256 + c) == 10 + (c - 0x61)
  {
    assert (high * 256 + c) % 256 == c;
  }

  /** Anything else changes nothing. */
  lemma {:induction false} OtherChars(s: State, wch: WChar)
    requires Inv(s) && !IsDigit(wch)
    ensures Step(s, Char(wch)) == s
  {
  }

  /** Paste puts the clipboard in place of the selection or at the caret, which stays in front of it. */
  lemma {:induction false} PasteMeans(s: State, bytes: seq<Byte>, cleared: seq<Byte>, at: nat)
    requires Inv(s) && s.clip == Some(bytes)
    requires if Selected(s) then at == Lo(s) && Without(s.buf, Lo(s), Hi(s), cleared) else at == s.index && cleared == s.buf
    ensures var r := Step(s, PasteCommand);
      With(cleared, at, bytes, r.buf) && r.index == at && r.clip == s.clip && Step(s, InsertKey(true, false)) == r
  {
    hide With;
    if Selected(s) {
      RemoveIs(s.buf, Lo(s), Hi(s));
      assert cleared == Remove(s.buf, Lo(s), Hi(s));
    }
    InsertIs(cleared, at, bytes);
  }

  /** Copy fills the clipboard and changes nothing else; without a selection it does nothing. */
  lemma {:induction false} CopyMeans(s: State, lo: nat, hi: nat)
    requires Inv(s)
    ensures Ends(s, lo, hi) ==> Step(s, CopyCommand) == s.(clip := Some(s.buf[lo..hi]))
    ensures s.selStart == s.selEnd ==> Step(s, CopyCommand) == s
    ensures Step(s, InsertKey(false, true)) == Step(s, CopyCommand)
  {
    if Ends(s, lo, hi) { EndsAre(s, lo, hi); }
  }
}
