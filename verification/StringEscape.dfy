/**
 Escaping of value names and REG_SZ data in registry files: the two-pass escape
 into a fresh buffer and the in-place unescape.
 */
module StringEscape {
  import opened WideText

  const LETTER_N: WChar := 0x6E
  const LETTER_R: WChar := 0x72
  const DIGIT_0: WChar := 0x30

  predicate Special(c: WChar) {
    c == CR || c == LF || c == BACKSLASH || c == QUOTE
  }

  function EscapeChar(c: WChar): Text {
    if c == CR then [BACKSLASH, LETTER_R]
    else if c == LF then [BACKSLASH, LETTER_N]
    else if c == BACKSLASH || c == QUOTE then [BACKSLASH, c]
    else [c]
  }

  /** Escaped form of a counted string; a NUL inside the count ends it early. */
  function Escape(s: Text): Text {
    if s == [] || s[0] == NUL then [] else EscapeChar(s[0]) + Escape(s[1..])
  }

  /** Escaped text never breaks a line of the file. */
  lemma {:induction false} EscapeOneLine(s: Text)
    ensures OneLine(Escape(s)) && NulFree(Escape(s))
  {
    if s == [] || s[0] == NUL {
    } else {
      EscapeOneLine(s[1..]);
    }
  }

  /** `restKnown` is false where the source returns before it sets the pointer to the rest. */
  datatype Unescaped = Unescaped(ok: bool, text: Text, rest: Text, restKnown: bool)

  /**
   Text up to the first unescaped quote with escapes replaced, and what follows
   that quote. An escape of '0' or at the end of the line, or a missing quote, fails.
   */
  function Unescape(s: Text): (u: Unescaped)
    ensures |u.text| + |u.rest| <= |s| && (u.ok ==> u.restKnown)
  {
    if s == [] then Unescaped(false, [], [], true)
    else if s[0] == QUOTE then Unescaped(true, [], s[1..], true)
    else if s[0] != BACKSLASH then Prepend(s[0], Unescape(s[1..]))
    else if |s| == 1 || s[1] == DIGIT_0 then Unescaped(false, [], [], false)
    else Prepend(UnescapeChar(s[1]), Unescape(s[2..]))
  }

  function UnescapeChar(c: WChar): WChar {
    if c == LETTER_N then LF else if c == LETTER_R then CR else c
  }

  function Prepend(c: WChar, u: Unescaped): Unescaped {
    u.(text := [c] + u.text)
  }

  lemma {:induction false} UnescapeNulFree(s: Text)
    requires NulFree(s)
    ensures NulFree(Unescape(s).text)
  {
    if s == [] || s[0] == QUOTE || (s[0] == BACKSLASH && (|s| == 1 || s[1] == DIGIT_0)) {
    } else {
      UnescapeNulFree(s[if s[0] == BACKSLASH then 2 else 1..]);
    }
  }

  lemma {:induction false} UnescapeEscapedChar(c: WChar, rest: Text)
    ensures Unescape(EscapeChar(c) + rest) == Prepend(c, Unescape(rest))
  {
    var e := EscapeChar(c);
    var line := e + rest;
    assert line[|e|..] == rest;
    assert line[0] == e[0] && (|e| == 2 ==> line[1] == e[1]);
  }

  /** A backslash makes n a line feed, r a carriage return, and leaves any other character but 0 as it is. */
  lemma {:induction false} EscapesRead(c: WChar, rest: Text)
    ensures var u := Unescape([BACKSLASH, c] + rest);
      && (c == LETTER_N ==> u == Prepend(LF, Unescape(rest)))
      && (c == LETTER_R ==> u == Prepend(CR, Unescape(rest)))
      && (c == DIGIT_0 ==> !u.ok && u.text == [])
      && (c != LETTER_N && c != LETTER_R && c != DIGIT_0 ==> u == Prepend(c, Unescape(rest)))
  {
    assert ([BACKSLASH, c] + rest)[2..] == rest;
  }

  lemma {:induction false} UnescapeQuote(rest: Text)
    ensures Unescape([QUOTE] + rest) == Unescaped(true, [], rest, true)
  {
    assert ([QUOTE] + rest)[1..] == rest;
  }

  /** Unescaping undoes escaping, whatever follows the closing quote. */
  lemma {:induction false} UnescapeEscape(s: Text, rest: Text)
    requires NulFree(s)
    ensures Unescape(Escape(s) + [QUOTE] + rest) == Unescaped(true, s, rest, true)
  {
    hide Unescape;
    if s == [] {
      UnescapeQuote(rest);
      assert Escape(s) + [QUOTE] + rest == [QUOTE] + rest;
    } else {
      var more := Escape(s[1..]) + [QUOTE] + rest;
      assert s[0] in s;
      UnescapeEscape(s[1..], rest);
      UnescapeEscapedChar(s[0], more);
      assert Escape(s) + [QUOTE] + rest == EscapeChar(s[0]) + more;
    }
  }

  // ------------------------------------------------------------ implementation

  function CountSpecial(s: Text): (n: nat)
    ensures n <= |s|
  {
    if s == [] || s[0] == NUL then 0 else (if Special(s[0]) then 1 else 0) + CountSpecial(s[1..])
  }

  lemma {:induction false} EscapedLength(s: Text)
    ensures |Escape(s)| == |CString(s)| + CountSpecial(s)
  {
    if s == [] || s[0] == NUL {
    } else {
      EscapedLength(s[1..]);
    }
  }

  lemma {:induction false} EscapeStep(s: Text, i: nat)
    requires i < |s| && s[i] != NUL
    ensures Escape(s[i..]) == EscapeChar(s[i]) + Escape(s[i + 1..])
    ensures CountSpecial(s[i..]) == (if Special(s[i]) then 1 else 0) + CountSpecial(s[i + 1..])
  {
    assert s[i..][1..] == s[i + 1..];
  }

  lemma {:induction false} EscapeRound(s: Text, i: nat, done: Text)
    requires i < |s| && s[i] != NUL
    ensures done + Escape(s[i..]) == (done + EscapeChar(s[i])) + Escape(s[i + 1..])
  {
    EscapeStep(s, i);
  }

  /** One character into the buffer, escaped if it must be. */
  method PutEscaped(buf: array<WChar>, start: nat, c: WChar) returns (pos: nat)
    requires start + |EscapeChar(c)| <= buf.Length
    modifies buf
    ensures pos == start + |EscapeChar(c)|
    ensures buf[..pos] == old(buf[..start]) + EscapeChar(c)
  {
    pos := start;
    if Special(c) {
      buf[pos] := BACKSLASH;
      pos := pos + 1;
      buf[pos] := if c == CR then LETTER_R else if c == LF then LETTER_N else c;
    } else {
      buf[pos] := c;
    }
    pos := pos + 1;
  }

  /** First pass: how many characters need a backslash. */
  method CountEscapes(str: Text) returns (count: nat)
    ensures count == CountSpecial(str)
  {
    var i := 0;
    count := 0;
    assert str[0..] == str;
    while i < |str| && str[i] != NUL
      invariant 0 <= i <= |str| && CountSpecial(str) == count + CountSpecial(str[i..])
    {
      EscapeStep(str, i);
      if Special(str[i]) { count := count + 1; }
      i := i + 1;
    }
  }

  /** REGPROC_escape_string: counts, allocates exactly enough, fills and terminates. */
  method EscapeString(str: Text) returns (buf: array<WChar>, lineLen: nat)
    ensures fresh(buf) && buf.Length == |str| + CountSpecial(str) + 1
    ensures lineLen < buf.Length && buf[..lineLen] == Escape(str) && buf[lineLen] == NUL
  {
    hide Escape, CountSpecial;
    var count := CountEscapes(str);
    buf := new WChar[|str| + count + 1](_ => NUL);
    EscapedLength(str);
    var i := 0;
    lineLen := 0;
    assert str[0..] == str;
    while i < |str| && str[i] != NUL
      invariant 0 <= i <= |str| && lineLen <= |Escape(str)| < buf.Length
      invariant Escape(str) == buf[..lineLen] + Escape(str[i..])
    {
      EscapeRound(str, i, buf[..lineLen]);
      lineLen := PutEscaped(buf, lineLen, str[i]);
      i := i + 1;
    }
    EscapeEnds(str[i..]);
    buf[lineLen] := NUL;
  }

  lemma {:induction false} EscapeEnds(s: Text)
    requires s == [] || s[0] == NUL
    ensures Escape(s) == []
  {
  }

  /** The C string s lies at index i of the array. */
  ghost predicate StringAt(a: array<WChar>, i: nat, s: Text)
    reads a
  {
    i + |s| < a.Length && a[i..i + |s|] == s && a[i + |s|] == NUL && NulFree(s)
  }

  /** lstrlenW */
  method Length(a: array<WChar>, i: nat, ghost s: Text) returns (len: nat)
    requires StringAt(a, i, s)
    ensures len == |s|
  {
    len := 0;
    while a[i + len] != NUL
      invariant len <= |s|
      decreases |s| - len
    {
      len := len + 1;
    }
    assert forall k :: 0 <= k < |s| ==> s[k] in s;
    assert a[i..i + |s|] == s && len == |s|;
  }

  ghost function Onto(out: Text, u: Unescaped): Unescaped {
    u.(text := out + u.text)
  }

  /** The text read so far gave `out`, and the rest of the line completes it to u. */
  ghost predicate Owes(u: Unescaped, out: Text, rest: Text) {
    u == Onto(out, Unescape(rest))
  }

  lemma {:induction false} OwesPlain(u: Unescaped, out: Text, rest: Text)
    requires rest != [] && rest[0] != QUOTE && rest[0] != BACKSLASH && Owes(u, out, rest)
    ensures Owes(u, out + [rest[0]], rest[1..])
  {
    var text := Unescape(rest[1..]).text;
    assert out + ([rest[0]] + text) == (out + [rest[0]]) + text;
  }

  lemma {:induction false} OwesEscape(u: Unescaped, out: Text, rest: Text)
    requires rest != [] && rest[0] == BACKSLASH && Owes(u, out, rest)
    ensures |rest| == 1 || rest[1] == DIGIT_0 ==> !u.ok && !u.restKnown
    ensures |rest| > 1 && rest[1] != DIGIT_0 ==> Owes(u, out + [UnescapeChar(rest[1])], rest[2..])
  {
    if |rest| > 1 && rest[1] != DIGIT_0 {
      var c, text := UnescapeChar(rest[1]), Unescape(rest[2..]).text;
      assert out + ([c] + text) == (out + [c]) + text;
    }
  }

  /** At a quote the rest of the line is what is unparsed; at the end there is no quote. */
  lemma {:induction false} OwesNothing(u: Unescaped, out: Text, rest: Text)
    requires Owes(u, out, rest) && (rest != [] ==> rest[0] == QUOTE)
    ensures u.restKnown && (u.ok <==> rest != [])
    ensures rest != [] ==> u == Unescaped(true, out, rest[1..], true)
  {
    assert out + [] == out;
  }

  /** What the loop has done when it has read i characters and written v. */
  ghost predicate Unescaping(a: array<WChar>, str: nat, s: Text, i: nat, v: nat, u: Unescaped)
    reads a
  {
    && v <= i <= |s| && str + |s| < a.Length
    && (forall k :: i <= k < |s| ==> a[str + k] == s[k]) && a[str + |s|] == NUL
    && Owes(u, a[str..str + v], s[i..])
  }

  /** One round: reads one character or escape at i, writes one character at v. */
  method UnescapeRound(a: array<WChar>, str: nat, len: nat, i: nat, v: nat, ghost s: Text, ghost u: Unescaped)
    returns (next: nat)
    requires |s| == len && Unescaping(a, str, s, i, v, u) && i < len && s[i] != QUOTE
    modifies a
    ensures next == 0 ==> !u.ok && !u.restKnown
    ensures next != 0 ==> i < next && Unescaping(a, str, s, next, v + 1, u)
    ensures forall k :: 0 <= k < a.Length && (k < str || k > str + len) ==> a[k] == old(a[k])
  {
    ghost var out, rest := a[str..str + v], s[i..];
    if a[str + i] == BACKSLASH {
      OwesEscape(u, out, rest);
      if i + 1 == len || a[str + i + 1] == DIGIT_0 { return 0; }
      a[str + v] := UnescapeChar(a[str + i + 1]);
      next := i + 2;
      assert rest[2..] == s[next..];
    } else {
      OwesPlain(u, out, rest);
      a[str + v] := a[str + i];
      next := i + 1;
      assert rest[1..] == s[next..];
    }
    assert a[str..str + (v + 1)] == out + [a[str + v]];
  }

  /** Terminates the unescaped string once the closing quote is reached. */
  method Finish(a: array<WChar>, str: nat, len: nat, i: nat, v: nat, ghost s: Text, ghost u: Unescaped) returns (ok: bool)
    requires |s| == len && Unescaping(a, str, s, i, v, u) && (i < len ==> s[i] == QUOTE) && NulFree(s) && NulFree(u.text)
    modifies a
    ensures ok == u.ok && u.restKnown
    ensures ok ==> i < len && StringAt(a, str, u.text) && StringAt(a, str + i + 1, u.rest) && i + 1 + |u.rest| == len
    ensures forall k :: 0 <= k < a.Length && (k < str || k > str + len) ==> a[k] == old(a[k])
  {
    ghost var out, rest := a[str..str + v], s[i..];
    OwesNothing(u, out, rest);
    ok := a[str + i] == QUOTE;
    a[str + v] := NUL;
    assert a[str..str + v] == out;
    if ok { RestAt(a, str, s, i); }
  }

  lemma {:induction false} RestAt(a: array<WChar>, str: nat, s: Text, i: nat)
    requires i < |s| && str + |s| < a.Length && NulFree(s) && a[str + |s|] == NUL
    requires forall k :: i < k < |s| ==> a[str + k] == s[k]
    ensures StringAt(a, str + i + 1, s[i..][1..])
  {
    var rest := s[i..][1..];
    assert rest == s[i + 1..];
    assert a[str + i + 1..str + |s|] == rest;
    assert forall c :: c in rest ==> c in s;
  }

  /**
   REGPROC_unescape_string on the C string s at `str`: rewrites it in place. The
   write index never passes the read index, so what is still to be read is intact. At an
   escape of '0' or at the end of the line it returns without assigning `unparsed`.
   */
  method UnescapeInPlace(a: array<WChar>, str: nat, ghost s: Text) returns (ok: bool, unparsed: Option<nat>)
    requires StringAt(a, str, s)
    modifies a
    ensures ok == Unescape(s).ok && (unparsed.Some? <==> Unescape(s).restKnown)
    ensures ok ==> StringAt(a, str, Unescape(s).text)
    ensures ok ==> StringAt(a, unparsed.value, Unescape(s).rest) && unparsed.value + |Unescape(s).rest| == str + |s|
    ensures forall k :: 0 <= k < a.Length && (k < str || k > str + |s|) ==> a[k] == old(a[k])
  {
    ghost var u := Unescape(s);
    UnescapeNulFree(s);
    StartUnescaping(a, str, s, u);
    var len := Length(a, str, s);
    ok, unparsed := UnescapeLoop(a, str, len, s, u);
  }

  lemma {:induction false} StartUnescaping(a: array<WChar>, str: nat, s: Text, u: Unescaped)
    requires StringAt(a, str, s) && u == Unescape(s)
    ensures Unescaping(a, str, s, 0, 0, u)
  {
    assert s[0..] == s && a[str..str] == [] && [] + u.text == u.text;
    forall k | 0 <= k < |s| ensures a[str + k] == s[k] { assert a[str..str + |s|][k] == s[k]; }
  }

  method UnescapeLoop(a: array<WChar>, str: nat, len: nat, ghost s: Text, ghost u: Unescaped)
    returns (ok: bool, unparsed: Option<nat>)
    requires |s| == len && Unescaping(a, str, s, 0, 0, u) && NulFree(s) && NulFree(u.text)
    modifies a
    ensures ok == u.ok && (unparsed.Some? <==> u.restKnown)
    ensures ok ==> u.restKnown && StringAt(a, str, u.text)
    ensures ok ==> StringAt(a, unparsed.value, u.rest) && unparsed.value + |u.rest| == str + |s|
    ensures forall k :: 0 <= k < a.Length && (k < str || k > str + |s|) ==> a[k] == old(a[k])
  {
    hide Owes, StringAt;
    var i, v := 0, 0;
    unparsed := None;
    while i < len && a[str + i] != QUOTE
      invariant Unescaping(a, str, s, i, v, u)
      invariant forall k :: 0 <= k < a.Length && (k < str || k > str + len) ==> a[k] == old(a[k])
      decreases len - i
    {
      i := UnescapeRound(a, str, len, i, v, s, u);
      if i == 0 { return false, None; }
      v := v + 1;
    }
    ok := Finish(a, str, len, i, v, s, u);
    unparsed := Some(str + i + 1);
  }
}
