/**
 The importer's text primitives on the line buffer itself: scanning C strings by index
 and cutting them short with a NUL written into the buffer.
 */
module LineText {
  import opened WideText
  import opened StringEscape
  import opened HexCodec
  import opened RegImport

  /** Only cells from i to j have changed. */
  twostate predicate OnlyWithin(a: array<WChar>, i: nat, j: nat)
    reads a
  {
    forall k :: 0 <= k < a.Length && (k < i || k > j) ==> a[k] == old(a[k])
  }

  lemma {:induction false} SuffixAt(a: array<WChar>, i: nat, s: Text, k: nat)
    requires StringAt(a, i, s) && k <= |s|
    ensures StringAt(a, i + k, s[k..])
  {
    assert a[i + k..i + |s|] == a[i..i + |s|][k..];
    assert forall c :: c in s[k..] ==> c in s;
  }

  lemma {:induction false} CharAt(a: array<WChar>, i: nat, s: Text, k: nat)
    requires StringAt(a, i, s) && k < |s|
    ensures a[i + k] == s[k] && s[k] != NUL
  {
    assert a[i..i + |s|][k] == s[k] && s[k] in s;
  }

  /** The C string at an index, as a value for the library calls that take one. */
  method Fetch(a: array<WChar>, i: nat, ghost s: Text) returns (t: Text)
    requires StringAt(a, i, s)
    ensures t == s
  {
    var len := Length(a, i, s);
    t := a[i..i + len];
  }

  /** while (*p == ' ' || *p == '\t') p++; */
  method SkipBlanksAt(a: array<WChar>, i: nat, ghost s: Text) returns (j: nat)
    requires StringAt(a, i, s)
    ensures i <= j && StringAt(a, j, SkipBlanks(s)) && j + |SkipBlanks(s)| == i + |s|
  {
    j := i;
    ghost var rest := s;
    while IsBlank(a[j])
      invariant i <= j && StringAt(a, j, rest) && j + |rest| == i + |s| && SkipBlanks(rest) == SkipBlanks(s)
      decreases |rest|
    {
      CharAt(a, j, rest, 0);
      SuffixAt(a, j, rest, 1);
      rest := rest[1..];
      j := j + 1;
    }
    if rest != [] { CharAt(a, j, rest, 0); }
  }

  /** p[k] = 0; */
  method Cut(a: array<WChar>, i: nat, ghost s: Text, k: nat)
    requires StringAt(a, i, s) && k <= |s|
    modifies a
    ensures StringAt(a, i, s[..k]) && OnlyWithin(a, i + k, i + k)
  {
    a[i + k] := NUL;
    assert a[i..i + k] == old(a[i..i + |s|])[..k];
  }

  /** Trailing blanks are cut off. */
  method TrimEnd(a: array<WChar>, i: nat, ghost s: Text)
    requires StringAt(a, i, s)
    modifies a
    ensures StringAt(a, i, TrimRight(s)) && OnlyWithin(a, i + |TrimRight(s)|, i + |TrimRight(s)|)
  {
    var len := Length(a, i, s);
    assert s[..len] == s;
    while len > 0 && IsBlank(a[i + len - 1])
      invariant 0 <= len <= |s| && TrimRight(s[..len]) == TrimRight(s) && a[..] == old(a[..])
    {
      CharAt(a, i, s, len - 1);
      assert s[..len][..len - 1] == s[..len - 1];
      len := len - 1;
    }
    if len > 0 { CharAt(a, i, s, len - 1); }
    Cut(a, i, s, len);
  }

  /** wcsrchr(p, ']'), or the length of the text when there is none */
  method FindLastBracket(a: array<WChar>, i: nat, ghost s: Text) returns (k: nat)
    requires StringAt(a, i, s)
    ensures k == LastBracket(s)
  {
    var len := Length(a, i, s);
    k := len;
    while k > 0 && a[i + k - 1] != RBRACKET
      invariant 0 <= k <= len == |s| && forall m :: k <= m < |s| ==> s[m] != RBRACKET
    {
      CharAt(a, i, s, k - 1);
      k := k - 1;
    }
    if k == 0 {
      k := len;
    } else {
      CharAt(a, i, s, k - 1);
      k := k - 1;
      assert s[k] == RBRACKET && s[k] in s;
    }
  }

  /** while (line[k] && !iswspace(line[k])) k++; */
  method WordEnd(a: array<WChar>, i: nat, ghost s: Text) returns (k: nat)
    requires StringAt(a, i, s)
    ensures k == WordRun(s)
  {
    k := 0;
    assert s[0..] == s;
    while a[i + k] != NUL && !IsSpace(a[i + k])
      invariant 0 <= k <= |s| && WordRun(s) == k + WordRun(s[k..])
      decreases |s| - k
    {
      CharAt(a, i, s, k);
      assert s[k..][1..] == s[k + 1..];
      k := k + 1;
    }
    if k < |s| { CharAt(a, i, s, k); }
  }

  /** !wcsncmp(p, prefix, lstrlenW(prefix)) */
  method StartsWith(a: array<WChar>, i: nat, ghost s: Text, prefix: Text) returns (b: bool)
    requires StringAt(a, i, s) && NulFree(prefix)
    ensures b <==> prefix <= s
  {
    var k := 0;
    while k < |prefix|
      invariant 0 <= k <= |prefix| && k <= |s| && prefix[..k] == s[..k]
    {
      if k < |s| { CharAt(a, i, s, k); }
      assert prefix[k] in prefix;
      if a[i + k] != prefix[k] { return false; }
      assert prefix[..k + 1] == prefix[..k] + [prefix[k]] && s[..k + 1] == s[..k] + [s[k]];
      k := k + 1;
    }
    assert prefix[..k] == prefix;
    return true;
  }

  /** How many hex digits stand at an index. */
  method CountDigits(a: array<WChar>, i: nat, ghost s: Text) returns (n: nat)
    requires StringAt(a, i, s)
    ensures n == HexRun(s)
  {
    n := 0;
    assert s[0..] == s;
    while IsHex(a[i + n])
      invariant 0 <= n <= |s| && HexRun(s) == n + HexRun(s[n..])
      decreases |s| - n
    {
      CharAt(a, i, s, n);
      assert s[n..][1..] == s[n + 1..];
      n := n + 1;
    }
    if n < |s| { CharAt(a, i, s, n); }
  }

  lemma {:induction false} DigitsNumber(digits: Text)
    requires AllHex(digits) && |digits| <= 8
    ensures HexNumber(digits) < UINT32 && Wcstoul(digits).value == HexNumber(digits)
  {
    HexNumberBound(digits);
    if digits == [] {
      assert Wcstoul(digits).value == 0;
    } else {
      WcstoulDigits(digits, []);
      assert digits + [] == digits;
    }
  }

  /** Whether nothing but blanks or a comment stands at an index. */
  method AtEnd(a: array<WChar>, i: nat, ghost s: Text) returns (b: bool)
    requires StringAt(a, i, s)
    ensures b <==> EndsHere(SkipBlanks(s))
  {
    var e := SkipBlanksAt(a, i, s);
    if SkipBlanks(s) != [] { CharAt(a, e, SkipBlanks(s), 0); }
    b := a[e] == NUL || a[e] == SEMICOLON;
  }

  method CutDigits(a: array<WChar>, i: nat, ghost s: Text, n: nat) returns (v: nat)
    requires StringAt(a, i, s) && n <= |s| && n <= 8 && AllHex(s[..n])
    modifies a
    ensures v == HexNumber(s[..n]) && OnlyWithin(a, i, i + |s|)
  {
    Cut(a, i, s, n);
    var digits := Fetch(a, i, s[..n]);
    DigitsNumber(digits);
    v := Wcstoul(digits).value;
  }

  method DigitsAt(a: array<WChar>, i: nat, ghost s: Text) returns (r: Option<nat>)
    requires StringAt(a, i, s)
    modifies a
    ensures r == ConvertDigits(s) && OnlyWithin(a, i, i + |s|)
  {
    if s != [] { CharAt(a, i, s, 0); }
    if a[i] == NUL { return None; }
    var n := CountDigits(a, i, s);
    if n > 8 { return None; }
    SuffixAt(a, i, s, n);
    var ends := AtEnd(a, i + n, s[n..]);
    if !ends { return None; }
    var v := CutDigits(a, i, s, n);
    r := Some(v);
  }

  /** convert_hex_to_dword: the text is cut behind the digits before they are read. */
  method ReadDword(a: array<WChar>, i: nat, ghost s: Text) returns (r: Option<nat>)
    requires StringAt(a, i, s)
    modifies a
    ensures r == ConvertDword(s) && OnlyWithin(a, i, i + |s|)
  {
    var str := SkipBlanksAt(a, i, s);
    r := DigitsAt(a, str, SkipBlanks(s));
  }
}
