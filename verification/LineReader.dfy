/**
 The buffered line reader of the registry importer (get_lineW): its value-level
 behaviour, chunk independence, and the buffer-moving implementation.
 */
module LineReader {
  import opened Basics
  import opened WideText

  const REG_VAL_BUF_SIZE := 4096

  // ---------------------------------------------------------------- splitting

  /** Index of the first CR or LF, or the length of the text when there is none. */
  function FirstBreak(t: Text): (i: nat)
    ensures i <= |t|
    ensures forall k :: 0 <= k < i ==> !IsBreak(t[k])
    ensures i < |t| ==> IsBreak(t[i])
  {
    if t == [] || IsBreak(t[0]) then 0 else
    var j := FirstBreak(t[1..]);
    assert forall k :: 1 <= k < j + 1 ==> t[k] == t[1..][k - 1];
    j + 1
  }

  /** Where the next line starts after a break at i: a CRLF pair is one break. */
  function AfterBreak(t: Text, i: nat): (j: nat)
    requires i < |t|
    ensures i < j <= |t| && j <= i + 2
  {
    if t[i] == CR && i + 1 < |t| && t[i + 1] == LF then i + 2 else i + 1
  }

  /** All pieces of a text cut at CR, LF or CRLF; the last piece has no break after it. */
  function SplitLines(t: Text): (ls: seq<Text>)
    ensures |ls| >= 1
    decreases |t|
  {
    var i := FirstBreak(t);
    if i == |t| then [t] else [t[..i]] + SplitLines(t[AfterBreak(t, i)..])
  }

  function NonEmpty(ls: seq<Text>): (r: seq<Text>)
    ensures forall l :: l in r ==> l != []
    ensures |r| <= |ls|
  {
    if ls == [] then [] else
    if ls[0] == [] then NonEmpty(ls[1..]) else [ls[0]] + NonEmpty(ls[1..])
  }

  // ------------------------------------------------------------- reader state

  /**
   The static variables of the reader plus the file: `size` is 0 when no buffer is
   allocated; `next` is the unread C string in the buffer, or None once the last
   line went out; `chunks` is what the remaining reads can deliver, in order.
   */
  datatype Reader = Reader(size: nat, next: Option<Text>, chunks: seq<Text>)

  ghost predicate ValidChunks(chunks: seq<Text>) {
    forall i :: 0 <= i < |chunks| ==> chunks[i] != []
  }

  ghost predicate ValidReader(r: Reader) {
    && ValidChunks(r.chunks)
    && (r.size > 0 ==> r.size >= REG_VAL_BUF_SIZE)
    && (r.size > 0 && r.next.Some? ==> |r.next.value| < r.size && NulFree(r.next.value))
    && (r.size == 0 ==> r.next.None?)
    && (r.size > 0 && r.next.None? ==> r.chunks == [])
  }

  /** fread: up to n units from the front chunk; nothing at end of file. */
  function Fread(chunks: seq<Text>, n: nat): (r: (Text, seq<Text>))
    requires ValidChunks(chunks) && n > 0
    ensures ValidChunks(r.1) && |r.0| <= n
    ensures r.0 == [] <==> chunks == []
    ensures Concat(chunks) == r.0 + Concat(r.1)
    ensures |Concat(r.1)| == |Concat(chunks)| - |r.0|
  {
    if chunks == [] then ([], []) else
    if |chunks[0]| <= n then (chunks[0], chunks[1..]) else
    var left := [chunks[0][n..]] + chunks[1..];
    assert left[1..] == chunks[1..];
    assert chunks[0] == chunks[0][..n] + chunks[0][n..];
    (chunks[0][..n], left)
  }

  /** The buffer size after making room for at least two more units and a terminator. */
  function Grown(size: nat, len: nat): nat {
    if size - len < 3 then size * 2 else size
  }

  /** A reader whose buffer still holds unread text. */
  ghost predicate Reading(r: Reader) {
    ValidReader(r) && r.size > 0 && r.next.Some?
  }

  /** fread behind the unread text; next is None at end of file. */
  function FreadInto(r: Reader): (r': Reader)
    requires Reading(r) && |r.next.value| < r.size - 2
    ensures ValidReader(r') && r'.size == r.size
    ensures r'.next.None? <==> r.chunks == []
    ensures r'.next.None? ==> r'.chunks == []
    ensures r'.next.Some? ==> |Concat(r'.chunks)| < |Concat(r.chunks)|
    ensures r'.next.Some? ==> |r'.next.value| + |Concat(r'.chunks)| <= |r.next.value| + |Concat(r.chunks)|
  {
    var got := Fread(r.chunks, r.size - |r.next.value| - 1);
    Reader(r.size, if got.0 == [] then None else Some(CString(r.next.value + got.0)), got.1)
  }

  /** The buffer made large enough for at least two more units, then read into. */
  function Refilled(r: Reader): (r': Reader)
    requires Reading(r)
    ensures ValidReader(r') && r'.size > 0
  {
    FreadInto(r.(size := Grown(r.size, |r.next.value|)))
  }

  /** The reading loop: one line from what is buffered, refilling while no break is in sight. */
  function NextLine(r: Reader): (o: (Text, Reader))
    requires Reading(r)
    ensures ValidReader(o.1) && o.1.size > 0 && NulFree(o.0)
    ensures o.1.next.Some? ==> |o.1.next.value| + |Concat(o.1.chunks)| < |r.next.value| + |Concat(r.chunks)|
    ensures o.1.next.None? ==> o.1.chunks == []
    decreases |Concat(r.chunks)|
  {
    var text := r.next.value;
    var i := FirstBreak(text);
    if i < |text| then
      (text[..i], r.(next := Some(text[AfterBreak(text, i)..])))
    else if r.chunks == [] then
      (text, Refilled(r))
    else
      NextLine(Refilled(r))
  }

  const FRESH_BUFFER := Some([])

  /** One call of the reader with a file; None is the NULL that also releases the buffer. */
  function ReadLine(r: Reader): (o: (Option<Text>, Reader))
    requires ValidReader(r)
    ensures ValidReader(o.1)
    ensures o.0.Some? <==> r.size == 0 || r.next.Some?
    ensures o.0.None? ==> o.1 == Reader(0, None, r.chunks)
    ensures o.0.Some? ==> NulFree(o.0.value) && o.1.size > 0
  {
    if r.size == 0 then
      var o := NextLine(Reader(REG_VAL_BUF_SIZE, FRESH_BUFFER, r.chunks)); (Some(o.0), o.1)
    else if r.next.Some? then
      var o := NextLine(r); (Some(o.0), o.1)
    else
      (None, Reader(0, None, r.chunks))
  }

  function Fuel(r: Reader): nat {
    if r.size == 0 then |Concat(r.chunks)| + 2
    else if r.next.Some? then |r.next.value| + |Concat(r.chunks)| + 1
    else 0
  }

  /** Every line still to come before the reader answers NULL. */
  function Lines(r: Reader): (ls: seq<Text>)
    requires ValidReader(r)
    ensures forall l :: l in ls ==> NulFree(l)
    decreases Fuel(r)
  {
    var (line, r') := ReadLine(r);
    if line.None? then [] else [line.value] + Lines(r')
  }

  lemma {:induction false} LinesStep(r: Reader)
    requires ValidReader(r)
    ensures var (line, r') := ReadLine(r);
      && Lines(r) == (if line.None? then [] else [line.value] + Lines(r'))
      && (line.None? ==> Lines(r') == [[]])
  {
    var (line, r') := ReadLine(r);
    if line.None? {
      var (again, r'') := ReadLine(r');
      assert again == Some([]) && r''.next.None?;
      assert Lines(r'') == [];
    }
  }

  // ------------------------------------------------------- chunk independence

  lemma {:induction false} NonEmptySkip(ls: seq<Text>)
    ensures NonEmpty([[]] + ls) == NonEmpty(ls)
  {
    assert ([[]] + ls)[1..] == ls;
  }

  lemma {:induction false} NonEmptyCons(l: Text, a: seq<Text>, b: seq<Text>)
    requires NonEmpty(a) == NonEmpty(b)
    ensures NonEmpty([l] + a) == NonEmpty([l] + b)
  {
    assert ([l] + a)[1..] == a && ([l] + b)[1..] == b;
  }

  lemma {:induction false} FirstBreakPrefix(a: Text, b: Text)
    requires FirstBreak(a) < |a|
    ensures FirstBreak(a + b) == FirstBreak(a)
  {
    FirstBreakAt(a + b, FirstBreak(a));
  }

  lemma {:induction false} SplitStep(t: Text)
    requires FirstBreak(t) < |t|
    ensures var i := FirstBreak(t); SplitLines(t) == [t[..i]] + SplitLines(t[AfterBreak(t, i)..])
  {
  }

  lemma {:induction false} SplitBreak(t: Text)
    requires t != [] && t[0] == LF
    ensures SplitLines(t) == [[]] + SplitLines(t[1..])
  {
    SplitStep(t);
    assert FirstBreak(t) == 0 && t[..0] == [];
  }

  /**
   Cutting the text right after a break that lies in its first part loses nothing
   but, when the cut falls between CR and LF, one empty line.
   */
  lemma {:induction false} SplitAcross(a: Text, b: Text)
    requires FirstBreak(a) < |a|
    ensures var i := FirstBreak(a);
      var rest := a[AfterBreak(a, i)..] + b;
      && SplitLines(a + b)[0] == a[..i]
      && NonEmpty(SplitLines(a + b)) == NonEmpty([a[..i]] + SplitLines(rest))
  {
    hide NonEmpty, SplitLines;
    var i := FirstBreak(a);
    var t := a + b;
    var j := AfterBreak(a, i);
    FirstBreakPrefix(a, b);
    SplitStep(t);
    assert t[..i] == a[..i];
    assert t[i] == a[i];
    if AfterBreak(t, i) == j {
      assert t[j..] == a[j..] + b;
    } else {
      assert j == |a| && b != [] && b[0] == LF;
      assert a[j..] + b == b && t[AfterBreak(t, i)..] == b[1..];
      SplitBreak(b);
      NonEmptySkip(SplitLines(b[1..]));
      NonEmptyCons(a[..i], SplitLines(b), SplitLines(b[1..]));
    }
  }

  ghost predicate NulFreeChunks(chunks: seq<Text>) {
    NulFree(Concat(chunks))
  }

  /** What the reader has yet to deliver, as one text. */
  ghost function Unread(r: Reader): Text {
    (if r.size > 0 && r.next.Some? then r.next.value else []) + Concat(r.chunks)
  }

  lemma {:induction false} RefilledUnread(r: Reader)
    requires Reading(r) && NulFreeChunks(r.chunks)
    ensures NulFreeChunks(Refilled(r).chunks)
    ensures r.chunks != [] ==> Unread(Refilled(r)) == Unread(r)
  {
    var got := Fread(r.chunks, Grown(r.size, |r.next.value|) - |r.next.value| - 1);
    assert forall c :: c in got.0 ==> c in Concat(r.chunks);
    assert forall c :: c in Concat(got.1) ==> c in Concat(r.chunks);
    assert NulFree(r.next.value + got.0);
    assert r.next.value + Concat(r.chunks) == (r.next.value + got.0) + Concat(got.1);
  }

  /** One delivered line, against the split of everything that was still unread. */
  lemma {:induction false} NextLineSplits(r: Reader)
    requires Reading(r) && NulFreeChunks(r.chunks)
    ensures var (line, r') := NextLine(r);
      && NulFreeChunks(r'.chunks)
      && line == SplitLines(Unread(r))[0]
      && (r'.next.None? ==> SplitLines(Unread(r)) == [line])
      && (r'.next.Some? ==> NonEmpty(SplitLines(Unread(r))) == NonEmpty([line] + SplitLines(Unread(r'))))
    decreases |Concat(r.chunks)|
  {
    var text := r.next.value;
    if FirstBreak(text) < |text| {
      SplitAcross(text, Concat(r.chunks));
    } else if r.chunks == [] {
      assert Unread(r) == text;
    } else {
      RefilledUnread(r);
      NextLineSplits(Refilled(r));
    }
  }

  lemma {:induction false} LinesOf(r: Reader)
    requires ValidReader(r) && NulFreeChunks(r.chunks)
    requires r.size == 0 || r.next.Some?
    ensures Lines(r) != [] && Lines(r)[0] == SplitLines(Unread(r))[0]
    ensures NonEmpty(Lines(r)) == NonEmpty(SplitLines(Unread(r)))
    decreases Fuel(r)
  {
    hide NextLine, SplitLines;
    var (line, r') := ReadLine(r);
    var open := if r.size == 0 then Reader(REG_VAL_BUF_SIZE, FRESH_BUFFER, r.chunks) else r;
    assert Unread(open) == Unread(r);
    NextLineSplits(open);
    if r'.next.Some? {
      LinesOf(r');
      NonEmptyCons(line.value, Lines(r'), SplitLines(Unread(r')));
    } else {
      assert Lines(r') == [];
    }
  }

  /**
   Whatever way the reads are cut into non-empty chunks, the non-empty lines of a
   NUL-free file are the non-empty pieces of its text, and the first line is its
   first piece.
   */
  lemma {:induction false} ChunkIndependence(chunks: seq<Text>)
    requires ValidChunks(chunks) && NulFreeChunks(chunks)
    ensures var ls := Lines(Reader(0, None, chunks));
      var text := Concat(chunks);
      && ls != [] && ls[0] == SplitLines(text)[0]
      && NonEmpty(ls) == NonEmpty(SplitLines(text))
  {
    LinesOf(Reader(0, None, chunks));
    assert Unread(Reader(0, None, chunks)) == Concat(chunks);
  }

  /**
   The split itself, without reference to how it is computed: putting breaks back
   between the pieces of break-free texts and splitting again returns the pieces.
   */
  function Unlines(ls: seq<Text>): Text {
    if ls == [] then [] else ls[0] + CRLF + Unlines(ls[1..])
  }

  lemma {:induction false} FirstBreakAt(t: Text, i: nat)
    requires i < |t| && IsBreak(t[i]) && forall k :: 0 <= k < i ==> !IsBreak(t[k])
    ensures FirstBreak(t) == i
  {
    assert !(FirstBreak(t) < i);
  }

  lemma {:induction false} SplitFirst(l: Text, rest: Text)
    requires OneLine(l)
    ensures SplitLines(l + CRLF + rest) == [l] + SplitLines(rest)
  {
    var t := l + CRLF + rest;
    var n := |l|;
    assert t[..n] == l && t[n] == CR && t[n + 1] == LF && t[n + 2..] == rest;
    forall k | 0 <= k < n ensures !IsBreak(t[k]) { assert t[k] == l[k] && l[k] in l; }
    FirstBreakAt(t, n);
  }

  /** Either break character ends a line, alone or in any run: only empty lines depend on which it is. */
  lemma {:induction false} AnyBreakSplits(l: Text, c: WChar, rest: Text)
    requires OneLine(l) && (c == CR || c == LF)
    ensures SplitLines(l) == [l] && SplitLines(l + [c] + rest)[0] == l
    ensures NonEmpty(SplitLines(l + [c] + rest)) == (if l == [] then [] else [l]) + NonEmpty(SplitLines(rest))
  {
    hide SplitLines;
    var a := l + [c];
    forall k | 0 <= k < |l| ensures !IsBreak(a[k]) { assert a[k] == l[k] && l[k] in l; }
    FirstBreakAt(a, |l|);
    SplitAcross(a, rest);
    assert a[|a|..] + rest == rest && a[..|l|] == l;
    assert ([l] + SplitLines(rest))[1..] == SplitLines(rest);
    Unbroken(l);
  }

  lemma {:induction false} Unbroken(l: Text)
    requires OneLine(l)
    ensures SplitLines(l) == [l]
  {
    forall k | 0 <= k < |l| ensures !IsBreak(l[k]) { assert l[k] in l; }
  }

  lemma {:induction false} SplitNothing()
    ensures SplitLines([]) == [[]]
  {
  }

  lemma {:induction false} SplitUnlines(ls: seq<Text>)
    requires forall l :: l in ls ==> OneLine(l)
    ensures SplitLines(Unlines(ls)) == ls + [[]]
  {
    hide SplitLines, OneLine;
    if ls == [] {
      SplitNothing();
    } else {
      assert ls[0] in ls && forall l :: l in ls[1..] ==> l in ls;
      SplitUnlines(ls[1..]);
      SplitFirst(ls[0], Unlines(ls[1..]));
      assert [ls[0]] + (ls[1..] + [[]]) == ls + [[]];
    }
  }

  lemma {:induction false} UnlinesConcat(a: seq<Text>, b: seq<Text>)
    ensures Unlines(a + b) == Unlines(a) + Unlines(b)
  {
    if a == [] {
      assert a + b == b;
    } else {
      assert (a + b)[1..] == a[1..] + b;
      UnlinesConcat(a[1..], b);
    }
  }

  // ------------------------------------------------------------ implementation

  /**
   get_lineW with its static variables; `next` is an index into `buf`, -1 for NULL.
   `pending` is the C string at `next`.
   */
  class LineBuffer {
    var size: nat
    var buf: array<WChar>
    var next: int
    var file: seq<Text>
    ghost var pending: Text

    ghost predicate Valid()
      reads this, buf
    {
      && ValidChunks(file)
      && (size > 0 ==> size >= REG_VAL_BUF_SIZE && buf.Length == size)
      && -1 <= next
      && (size > 0 && next >= 0 ==> Holds(next, pending))
      && (size > 0 && next == -1 ==> file == [])
    }

    /** The C string s lies at index i of the buffer. */
    ghost predicate Holds(i: int, s: Text)
      reads this, buf
    {
      && 0 <= i && i + |s| < buf.Length
      && (forall k :: 0 <= k < |s| ==> buf[i + k] == s[k]) && buf[i + |s|] == NUL
      && NulFree(s)
    }

    ghost function State(): (r: Reader)
      requires Valid()
      reads this, buf
      ensures ValidReader(r)
    {
      Reader(size, if size > 0 && next >= 0 then Some(pending) else None, file)
    }

    constructor (chunks: seq<Text>)
      requires ValidChunks(chunks)
      ensures Valid() && fresh(buf) && State() == Reader(0, None, chunks)
    {
      size, next, file := 0, -1, chunks;
      buf := new WChar[0];
      pending := [];
    }

    /** wcspbrk(buf + next, L"\r\n"): the first break or, failing that, the terminator. */
    method FindBreak() returns (p: nat)
      requires Valid() && size > 0 && next >= 0
      ensures p - next == FirstBreak(pending) && p < buf.Length
      ensures buf[p] == NUL <==> p - next == |pending|
    {
      p := next;
      while buf[p] != NUL && !IsBreak(buf[p])
        invariant next <= p <= next + |pending|
        invariant forall k :: 0 <= k < p - next ==> !IsBreak(pending[k])
        decreases buf.Length - p
      {
        assert p - next < |pending| ==> pending[p - next] == buf[p];
        p := p + 1;
      }
      if p - next < |pending| {
        assert pending[p - next] == buf[p] && pending[p - next] in pending;
        FirstBreakAt(pending, p - next);
      }
    }

    /** realloc to twice the size. */
    method Double(len: nat)
      requires Valid() && size > 0 && next == 0 && |pending| == len
      modifies this`size, this`buf
      ensures Valid() && size == 2 * old(size) && fresh(buf)
    {
      size := size * 2;
      var bigger := new WChar[size](_ => NUL);
      forall i | 0 <= i <= len { bigger[i] := buf[i]; }
      buf := bigger;
    }

    /** memmove of the unread text and its terminator. */
    method MoveFront(len: nat)
      requires Valid() && size > 0 && next >= 0 && |pending| == len
      modifies this`next, buf
      ensures Valid() && next == 0
    {
      forall i | 0 <= i <= len { buf[i] := buf[next + i]; }
      next := 0;
    }

    /** Room for the next read: unread text to the front, buffer doubled when nearly full. */
    method Compact(len: nat)
      requires Valid() && size > 0 && next >= 0 && |pending| == len
      modifies this`size, this`buf, this`next, buf
      ensures Valid() && next == 0 && size == Grown(old(size), len) && len < size - 2
      ensures buf == old(buf) || fresh(buf)
    {
      MoveFront(len);
      if size - len < 3 { Double(len); }
    }

    /** Stores freshly read units behind the unread text and terminates them. */
    method Append(len: nat, got: Text)
      requires Valid() && size > 0 && next == 0 && |pending| == len && len + |got| < size
      modifies this`pending, buf
      ensures Valid() && pending == CString(old(pending) + got)
    {
      forall i | 0 <= i < |got| { buf[len + i] := got[i]; }
      buf[len + |got|] := NUL;
      ghost var whole := pending + got;
      assert forall k :: 0 <= k < |whole| ==> buf[k] == whole[k];
      pending := CString(whole);
    }

    /** The fread step: more text behind the unread part. */
    method Refill(len: nat)
      requires Valid() && size > 0 && next == 0 && |pending| == len < size - 2 && file != []
      modifies this`file, this`pending, buf
      ensures Valid() && State() == FreadInto(old(State()))
    {
      var (got, left) := Fread(file, size - len - 1);
      file := left;
      Append(len, got);
    }

    /** The start of the next line after the break at p. */
    method BreakEnd(p: nat) returns (q: nat)
      requires Valid() && size > 0 && next >= 0 && p - next == FirstBreak(pending) < |pending|
      ensures q - next == AfterBreak(pending, p - next)
    {
      ghost var i, end := p - next, next + |pending|;
      assert pending[i] == buf[p];
      assert p + 1 < end ==> pending[i + 1] == buf[p + 1];
      q := p + 1;
      if buf[p] == CR && buf[p + 1] == LF { q := q + 1; }
    }

    /** The line s starts at i and ends, with its terminator, before the unread text. */
    ghost predicate LineAt(i: int, s: Text)
      reads this, buf
    {
      size > 0 && Holds(i, s) && (next >= 0 ==> i + |s| < next)
    }

    /** Cuts the line that ends at the break p out of the buffer. */
    method TakeLine(p: nat) returns (start: nat, ghost line: Text)
      requires Valid() && size > 0 && next >= 0 && p - next == FirstBreak(pending) < |pending|
      modifies this`next, this`pending, buf
      ensures Valid() && next >= 0 && LineAt(start, line)
      ensures var i := p - old(next);
        line == old(pending)[..i] && pending == old(pending)[AfterBreak(old(pending), i)..]
    {
      hide FirstBreak;
      var q := BreakEnd(p);
      start, line := next, pending[..p - next];
      pending := pending[q - next..];
      buf[p] := NUL;
      next := q;
    }

    /** At the end of the file the whole buffer is the last line. */
    method LastLine(len: nat)
      requires Valid() && size > 0 && next == 0 && |pending| == len < size - 2 && file == []
      modifies this`next
      ensures Valid() && next == -1 && LineAt(0, pending) && State() == FreadInto(old(State()))
    {
      next := -1;
    }

    /** No break in sight: room for more, then more text or the last line. */
    method ReadMore(len: nat) returns (start: int, ghost line: Text)
      requires Valid() && Reading(State()) && len == |pending| == FirstBreak(pending)
      modifies this, buf
      ensures Valid() && (buf == old(buf) || fresh(buf)) && -1 <= start
      ensures start >= 0 ==> LineAt(start, line) && (line, State()) == NextLine(old(State()))
      ensures start == -1 ==> old(file) != [] && State() == Refilled(old(State())) && Reading(State())
      ensures start == -1 ==> NextLine(State()) == NextLine(old(State()))
    {
      Compact(len);
      if file == [] {
        LastLine(len);
        start, line := 0, pending;
      } else {
        Refill(len);
        start, line := -1, [];
      }
    }

    /** One round of the loop: the index of a line, or -1 with more text in the buffer. */
    method Round() returns (start: int, ghost line: Text)
      requires Valid() && Reading(State())
      modifies this, buf
      ensures Valid() && (buf == old(buf) || fresh(buf)) && -1 <= start
      ensures start >= 0 ==> LineAt(start, line) && (line, State()) == NextLine(old(State()))
      ensures start == -1 ==> old(file) != [] && State() == Refilled(old(State())) && Reading(State())
      ensures start == -1 ==> NextLine(State()) == NextLine(old(State()))
    {
      var p := FindBreak();
      if buf[p] != NUL {
        start, line := TakeLine(p);
      } else {
        start, line := ReadMore(p - next);
      }
    }

    /** get_lineW(fp): the index of a line in the buffer, or -1 for NULL, which releases the buffer. */
    method GetLine() returns (start: int, ghost line: Option<Text>)
      requires Valid()
      modifies this, buf
      ensures Valid() && (buf == old(buf) || fresh(buf)) && -1 <= start
      ensures (line, State()) == ReadLine(old(State()))
      ensures if start >= 0 then line.Some? && LineAt(start, line.value) else line.None? && size == 0
    {
      if size == 0 { Allocate(); }
      if next == -1 {
        Release();
        return -1, None;
      }
      ghost var first, text := State(), [];
      start := -1;
      while start == -1
        invariant Valid() && (buf == old(buf) || fresh(buf)) && -1 <= start
        invariant start == -1 ==> Reading(State()) && NextLine(State()) == NextLine(first)
        invariant start >= 0 ==> LineAt(start, text) && (text, State()) == NextLine(first)
        decreases if start == -1 then 1 + |Concat(file)| else 0
      {
        start, text := Round();
      }
      line := Some(text);
    }

    method Allocate()
      requires Valid() && size == 0
      modifies this
      ensures Valid() && fresh(buf) && State() == Reader(REG_VAL_BUF_SIZE, FRESH_BUFFER, old(file))
    {
      size := REG_VAL_BUF_SIZE;
      buf := new WChar[size](_ => NUL);
      next, pending := 0, [];
    }

    /** get_lineW(NULL), and the end of the file: the next call starts over with a new buffer. */
    method Release()
      requires Valid()
      modifies this`size
      ensures Valid() && State() == Reader(0, None, file)
    {
      size := 0;
    }
  }
}
