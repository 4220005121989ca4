/**
 The end of a group file: the extension records with working directories, hot keys and show
 commands, the loop that reads them back, and the checksum stored into the header last.
 */
module GroupExtension {
  import opened Basics
  import opened WideText
  import opened GroupFile
  import opened GroupLayout

  const SHOW_NORMAL: nat := 1
  const PMCC: seq<Byte> := [80, 77, 67, 67]

  /** What the extension says about a program. */
  datatype Extra = Extra(workDir: seq<Byte>, hotKey: nat, show: nat)

  const PLAIN := Extra([], 0, SHOW_NORMAL)

  /** Values that fit the 16-bit fields. */
  predicate Proper(e: Extra) {
    0 !in e.workDir && |e.workDir| + 7 < WORD && e.hotKey < WORD && e.show < WORD
  }

  datatype Record = Record(typ: nat, number: nat, body: seq<Byte>)

  predicate Fits(r: Record) {
    r.typ < WORD && r.number < WORD && 6 + |r.body| < WORD
  }

  function RecordBytes(r: Record): (b: seq<Byte>)
    ensures |b| == 6 + |r.body|
  {
    Shorts([r.typ, r.number, 6 + |r.body|]) + r.body
  }

  function AllBytes(rs: seq<Record>): seq<Byte> {
    if rs == [] then [] else RecordBytes(rs[0]) + AllBytes(rs[1..])
  }

  /** The records of the n-th program; a show command of zero gets none. */
  function RecordsOf(e: Extra, n: nat): seq<Record> {
    (if e.workDir != [] then [Record(0x8101, n, e.workDir + [0])] else [])
    + (if e.hotKey != 0 then [Record(0x8102, n, Shorts([e.hotKey]))] else [])
    + (if e.show != 0 then [Record(0x8103, n, Shorts([e.show]))] else [])
  }

  /** The records of the first n programs. */
  function Records(es: seq<Extra>, n: nat): seq<Record>
    requires n <= |es|
  {
    if n == 0 then [Record(0x8000, 0xFFFF, PMCC)] else Records(es, n - 1) + RecordsOf(es[n - 1], n - 1)
  }

  /** Some program has something out of the ordinary. */
  predicate Needed(es: seq<Extra>) {
    exists i :: 0 <= i < |es| && (es[i].workDir != [] || es[i].hotKey != 0 || es[i].show != SHOW_NORMAL)
  }

  const END: seq<Byte> := Shorts([0xFFFF, 0xFFFF, 0])

  function Extension(es: seq<Extra>): seq<Byte> {
    if Needed(es) then AllBytes(Records(es, |es|)) + END else []
  }

  // ------------------------------------------------------------------------ reading

  /** The C string a buffer holds. */
  function ByteString(b: seq<Byte>): (t: seq<Byte>) {
    assert forall k :: 0 <= k < |CString(b)| ==> CString(b)[k] == b[k];
    CString(b)
  }

  /** One record that belongs to the program; None ends the reading of the group. */
  function Take(file: seq<Byte>, at: nat, typ: nat, e: Extra): Option<Extra>
    requires at + 6 <= |file|
  {
    if typ == 0x8000 then if at + 10 <= |file| && file[at + 6..at + 10] == PMCC then Some(e) else None
    else if typ == 0x8101 then Some(e.(workDir := ByteString(file[at + 6..])))
    else if typ == 0x8102 then if at + 8 <= |file| then Some(e.(hotKey := ShortAt(file, at + 6))) else None
    else if typ == 0x8103 then if at + 8 <= |file| then Some(e.(show := ShortAt(file, at + 6))) else None
    else Some(e)
  }

  function Scan(file: seq<Byte>, at: nat, k: nat, e: Extra): Option<Extra>
    decreases |file| - at
  {
    if at + 6 > |file| then Some(e) else
    var got := if ShortAt(file, at + 2) == k then Take(file, at, ShortAt(file, at), e) else Some(e);
    var skip := ShortAt(file, at + 4);
    if got.None? || skip == 0 then got else Scan(file, at + skip, k, got.value)
  }

  /** The extension loop of GRPFILE_ScanProgram */
  method ScanExtension(file: seq<Byte>, start: nat, k: nat) returns (r: Option<Extra>)
    ensures r == Scan(file, start, k, PLAIN)
  {
    hide Take, ShortAt;
    var at, e := start, PLAIN;
    while at + 6 <= |file|
      invariant Scan(file, at, k, e) == Scan(file, start, k, PLAIN)
      decreases |file| - at
    {
      var skip := ShortAt(file, at + 4);
      if ShortAt(file, at + 2) == k {
        var got := Take(file, at, ShortAt(file, at), e);
        if got.None? { return None; }
        e := got.value;
      }
      if skip == 0 { return Some(e); }
      at := at + skip;
    }
    return Some(e);
  }

  // --------------------------------------------------------------- reading what was written

  lemma {:induction false} StringBack(t: seq<Byte>, rest: seq<Byte>)
    requires 0 !in t
    ensures ByteString(t + [0] + rest) == t
    decreases |t|
  {
    var b := t + [0] + rest;
    if t != [] {
      assert t[0] in t && b[1..] == t[1..] + [0] + rest;
      StringBack(t[1..], rest);
    }
  }

  /** What a well-formed record does to the settings. */
  function Absorb(r: Record, e: Extra): Extra {
    if r.typ == 0x8101 then e.(workDir := ByteString(r.body))
    else if r.typ == 0x8102 && |r.body| == 2 then e.(hotKey := ShortAt(r.body, 0))
    else if r.typ == 0x8103 && |r.body| == 2 then e.(show := ShortAt(r.body, 0))
    else e
  }

  /** Records the reader accepts: the strings terminated, the numbers there. */
  predicate WellFormed(r: Record) {
    && Fits(r)
    && (r.typ == 0x8000 ==> r.body == PMCC)
    && (r.typ == 0x8101 ==> r.body != [] && r.body[|r.body| - 1] == 0 && 0 !in r.body[..|r.body| - 1])
    && (r.typ == 0x8102 || r.typ == 0x8103 ==> |r.body| == 2)
  }

  lemma {:induction false} RecordFields(front: seq<Byte>, r: Record, rest: seq<Byte>)
    requires Fits(r)
    ensures var file, at := front + RecordBytes(r) + rest, |front|;
      && ShortAt(file, at) == r.typ && ShortAt(file, at + 2) == r.number && ShortAt(file, at + 4) == 6 + |r.body|
      && file[at + 6..] == r.body + rest
  {
    hide Word;
    var head := [r.typ, r.number, 6 + |r.body|];
    var file, at := front + RecordBytes(r) + rest, |front|;
    ShortsAt(head, 0);
    ShortsAt(head, 1);
    ShortsAt(head, 2);
    assert forall i :: 0 <= i < 6 ==> file[at + i] == Shorts(head)[i];
  }

  lemma {:induction false} TakeRecord(front: seq<Byte>, r: Record, rest: seq<Byte>, e: Extra)
    requires WellFormed(r)
    ensures Take(front + RecordBytes(r) + rest, |front|, r.typ, e) == Some(Absorb(r, e))
  {
    hide Word, RecordBytes;
    RecordFields(front, r, rest);
    var file, at := front + RecordBytes(r) + rest, |front|;
    var body := file[at + 6..];
    if r.typ == 0x8101 {
      var t := r.body[..|r.body| - 1];
      StringBack(t, rest);
      StringBack(t, []);
      assert t + [0] == r.body && t + [0] + [] == r.body;
    } else if r.typ == 0x8000 {
      assert file[at + 6..at + 10] == body[..4] == PMCC;
    } else if r.typ == 0x8102 || r.typ == 0x8103 {
      assert file[at + 6] == body[0] && file[at + 7] == body[1];
    }
  }

  function Effect(r: Record, k: nat, e: Extra): Extra {
    if r.number == k then Absorb(r, e) else e
  }

  /** What a list of records does to the settings of program k. */
  function Effects(rs: seq<Record>, k: nat, e: Extra): Extra
    decreases |rs|
  {
    if rs == [] then e else Effects(rs[1..], k, Effect(rs[0], k, e))
  }

  lemma {:induction false} ScanRecord(front: seq<Byte>, r: Record, rest: seq<Byte>, k: nat, e: Extra)
    requires WellFormed(r)
    ensures var file := front + RecordBytes(r) + rest;
      Scan(file, |front|, k, e) == Scan(file, |front + RecordBytes(r)|, k, Effect(r, k, e))
  {
    hide Take, Absorb, ShortAt;
    RecordFields(front, r, rest);
    TakeRecord(front, r, rest, e);
  }

  lemma {:induction false} ScanEnd(front: seq<Byte>, k: nat, e: Extra)
    requires k != 0xFFFF
    ensures Scan(front + END, |front|, k, e) == Some(e)
  {
    hide Take, Word;
    var head := [0xFFFF, 0xFFFF, 0];
    ShortsAt(head, 1);
    ShortsAt(head, 2);
    assert forall i :: 0 <= i < 6 ==> (front + END)[|front| + i] == END[i];
  }

  lemma {:induction false} ScanAll(front: seq<Byte>, rs: seq<Record>, k: nat, e: Extra)
    requires k != 0xFFFF && forall i :: 0 <= i < |rs| ==> WellFormed(rs[i])
    ensures Scan(front + (AllBytes(rs) + END), |front|, k, e) == Some(Effects(rs, k, e))
    decreases |rs|
  {
    hide Scan, WellFormed, Effect;
    if rs == [] {
      ScanEnd(front, k, e);
      assert [] + END == END;
    } else {
      var b, rest := RecordBytes(rs[0]), AllBytes(rs[1..]) + END;
      Associate(b, AllBytes(rs[1..]), END);
      Associate(front, b, rest);
      assert WellFormed(rs[0]);
      ScanRecord(front, rs[0], rest, k, e);
      ScanAll(front + b, rs[1..], k, Effect(rs[0], k, e));
    }
  }

  lemma {:induction false} EffectsConcat(a: seq<Record>, b: seq<Record>, k: nat, e: Extra)
    ensures Effects(a + b, k, e) == Effects(b, k, Effects(a, k, e))
    decreases |a|
  {
    if a == [] {
      assert a + b == b;
    } else {
      assert (a + b)[1..] == a[1..] + b;
      EffectsConcat(a[1..], b, k, Effect(a[0], k, e));
    }
  }

  lemma {:induction false} EffectsElsewhere(rs: seq<Record>, k: nat, e: Extra)
    requires forall i :: 0 <= i < |rs| ==> rs[i].number != k
    ensures Effects(rs, k, e) == e
    decreases |rs|
  {
    if rs != [] { EffectsElsewhere(rs[1..], k, e); }
  }

  /** What reading makes of a program's settings: a show command of zero becomes the normal one. */
  function ReadBack(e: Extra): Extra {
    if e.show == 0 then e.(show := SHOW_NORMAL) else e
  }

  lemma {:induction false} EffectsOne(r: Record, k: nat, e: Extra)
    ensures Effects([r], k, e) == Effect(r, k, e)
  {
    assert [r][1..] == [];
  }

  lemma {:induction false} NumberBack(v: nat)
    requires v < WORD
    ensures |Shorts([v])| == 2 && ShortAt(Shorts([v]), 0) == v
  {
    hide Shorts, ShortAt;
    ShortsAt([v], 0);
  }

  lemma {:induction false} EffectsOwn(e: Extra, n: nat)
    requires Proper(e)
    ensures Effects(RecordsOf(e, n), n, PLAIN) == ReadBack(e)
  {
    hide ShortAt, Effects;
    var dir := if e.workDir != [] then [Record(0x8101, n, e.workDir + [0])] else [];
    var key := if e.hotKey != 0 then [Record(0x8102, n, Shorts([e.hotKey]))] else [];
    var show := if e.show != 0 then [Record(0x8103, n, Shorts([e.show]))] else [];
    EffectsConcat(dir + key, show, n, PLAIN);
    EffectsConcat(dir, key, n, PLAIN);
    NumberBack(e.hotKey);
    NumberBack(e.show);
    StringBack(e.workDir, []);
    assert e.workDir + [0] + [] == e.workDir + [0];
    EffectsAtMostOne(dir, n, PLAIN);
    assert Effects(dir, n, PLAIN) == PLAIN.(workDir := e.workDir);
    var two := PLAIN.(workDir := e.workDir);
    EffectsAtMostOne(key, n, two);
    assert Effects(key, n, two) == two.(hotKey := e.hotKey);
    EffectsAtMostOne(show, n, two.(hotKey := e.hotKey));
  }

  lemma {:induction false} EffectsAtMostOne(rs: seq<Record>, k: nat, e: Extra)
    requires |rs| <= 1
    ensures Effects(rs, k, e) == if rs == [] then e else Effect(rs[0], k, e)
  {
    if rs != [] {
      EffectsOne(rs[0], k, e);
      assert rs == [rs[0]];
    }
  }

  lemma {:induction false} RecordsNumbered(es: seq<Extra>, n: nat, k: nat)
    requires n <= |es| && k < 0xFFFF
    ensures Effects(Records(es, n), k, PLAIN) == if k < n then Effects(RecordsOf(es[k], k), k, PLAIN) else PLAIN
    decreases n
  {
    hide RecordsOf;
    if n == 0 {
      EffectsElsewhere(Records(es, 0), k, PLAIN);
    } else {
      RecordsNumbered(es, n - 1, k);
      var own := RecordsOf(es[n - 1], n - 1);
      EffectsConcat(Records(es, n - 1), own, k, PLAIN);
      if k != n - 1 {
        OwnNumber(es[n - 1], n - 1);
        EffectsElsewhere(own, k, Effects(Records(es, n - 1), k, PLAIN));
      }
    }
  }

  lemma {:induction false} OwnNumber(e: Extra, n: nat)
    ensures forall i :: 0 <= i < |RecordsOf(e, n)| ==> RecordsOf(e, n)[i].number == n
  {
  }

  lemma {:induction false} OwnWellFormed(e: Extra, n: nat)
    requires Proper(e) && n < WORD
    ensures forall i :: 0 <= i < |RecordsOf(e, n)| ==> WellFormed(RecordsOf(e, n)[i])
  {
    assert (e.workDir + [0])[..|e.workDir|] == e.workDir;
  }

  lemma {:induction false} RecordsWellFormed(es: seq<Extra>, n: nat)
    requires n <= |es| <= 0xFFFF && forall i :: 0 <= i < |es| ==> Proper(es[i])
    ensures forall i :: 0 <= i < |Records(es, n)| ==> WellFormed(Records(es, n)[i])
    decreases n
  {
    hide RecordsOf, Proper, WellFormed;
    if n == 0 {
      HeadWellFormed();
    } else {
      RecordsWellFormed(es, n - 1);
      OwnWellFormed(es[n - 1], n - 1);
    }
  }

  lemma {:induction false} HeadWellFormed()
    ensures WellFormed(Record(0x8000, 0xFFFF, PMCC))
  {
  }

  /**
   Reading from where the extension starts returns each program's working directory, hot key and
   show command, except that a show command of zero comes back as the normal one.
   */
  lemma {:induction false} ExtensionBack(front: seq<Byte>, es: seq<Extra>, k: nat)
    requires k < |es| <= 0xFFFF && forall i :: 0 <= i < |es| ==> Proper(es[i])
    ensures Scan(front + Extension(es), |front|, k, PLAIN) == Some(ReadBack(es[k]))
  {
    hide Records, Effects, RecordsOf, WellFormed;
    if Needed(es) {
      RecordsWellFormed(es, |es|);
      ScanAll(front, Records(es, |es|), k, PLAIN);
      RecordsNumbered(es, |es|, k);
      EffectsOwn(es[k], k);
    } else {
      assert es[k] == PLAIN;
      assert Scan(front + [], |front|, k, PLAIN) == Some(PLAIN);
    }
  }

  /** So they come back unchanged exactly when the show command is not zero. */
  lemma {:induction false} ExtensionExact(front: seq<Byte>, es: seq<Extra>, k: nat)
    requires k < |es| <= 0xFFFF && forall i :: 0 <= i < |es| ==> Proper(es[i])
    ensures Scan(front + Extension(es), |front|, k, PLAIN) == Some(es[k]) <==> es[k].show != 0
  {
    hide Scan, Extension;
    ExtensionBack(front, es, k);
  }

  // ------------------------------------------------------------------------ writing

  lemma {:induction false} AllBytesConcat(a: seq<Record>, b: seq<Record>)
    ensures AllBytes(a + b) == AllBytes(a) + AllBytes(b)
  {
    if a == [] {
      assert a + b == b;
    } else {
      assert (a + b)[1..] == a[1..] + b;
      AllBytesConcat(a[1..], b);
      Associate(RecordBytes(a[0]), AllBytes(a[1..]), AllBytes(b));
    }
  }

  lemma {:induction false} AllBytesOne(r: Record)
    ensures AllBytes([r]) == RecordBytes(r)
  {
    assert [r][1..] == [];
  }

  /** A record of two writes: its head, then its body. */
  method WriteRecord(out: GroupWriter, r: Record)
    requires out.Valid() && r.body != []
    modifies out
    ensures out.Valid() && out.written == old(out.written) + RecordBytes(r)
  {
    var head := Shorts([r.typ, r.number, 6 + |r.body|]);
    out.Write(head);
    out.Write(r.body);
    Associate(old(out.written), head, r.body);
  }

  method WriteRecords(out: GroupWriter, rs: seq<Record>)
    requires out.Valid() && forall i :: 0 <= i < |rs| ==> rs[i].body != []
    modifies out
    ensures out.Valid() && out.written == old(out.written) + AllBytes(rs)
  {
    var i := 0;
    assert out.written + [] == out.written;
    while i < |rs|
      invariant 0 <= i <= |rs| && out.Valid() && out.written == old(out.written) + AllBytes(rs[..i])
    {
      WriteRecord(out, rs[i]);
      assert rs[..i + 1] == rs[..i] + [rs[i]];
      AllBytesConcat(rs[..i], [rs[i]]);
      AllBytesOne(rs[i]);
      Associate(old(out.written), AllBytes(rs[..i]), RecordBytes(rs[i]));
      i := i + 1;
    }
    assert rs[..i] == rs;
  }

  /** The loop over the programs, counting them. */
  method WriteExtras(out: GroupWriter, es: seq<Extra>)
    requires out.Valid()
    modifies out
    ensures out.Valid() && out.written == old(out.written) + AllBytes(Records(es, |es|))
  {
    hide RecordsOf;
    var head := Record(0x8000, 0xFFFF, PMCC);
    WriteRecord(out, head);
    AllBytesOne(head);
    var n := 0;
    while n < |es|
      invariant 0 <= n <= |es| && out.Valid() && out.written == old(out.written) + AllBytes(Records(es, n))
    {
      BodiesThere(es[n], n);
      WriteRecords(out, RecordsOf(es[n], n));
      AllBytesConcat(Records(es, n), RecordsOf(es[n], n));
      Associate(old(out.written), AllBytes(Records(es, n)), AllBytes(RecordsOf(es[n], n)));
      n := n + 1;
    }
  }

  lemma {:induction false} BodiesThere(e: Extra, n: nat)
    ensures forall i :: 0 <= i < |RecordsOf(e, n)| ==> RecordsOf(e, n)[i].body != []
  {
  }

  method NeedsExtension(es: seq<Extra>) returns (yes: bool)
    ensures yes <==> Needed(es)
  {
    var i := 0;
    while i < |es|
      invariant 0 <= i <= |es|
      invariant forall j :: 0 <= j < i ==> es[j].workDir == [] && es[j].hotKey == 0 && es[j].show == SHOW_NORMAL
    {
      if es[i].workDir != [] || es[i].hotKey != 0 || es[i].show != SHOW_NORMAL { return true; }
      i := i + 1;
    }
    return false;
  }

  method WriteExtension(out: GroupWriter, es: seq<Extra>)
    requires out.Valid()
    modifies out
    ensures out.Valid() && out.written == old(out.written) + Extension(es)
  {
    hide Records, AllBytes;
    var yes := NeedsExtension(es);
    if !yes { return; }
    WriteExtras(out, es);
    out.Write(END);
    Associate(old(out.written), AllBytes(Records(es, |es|)), END);
  }

  // --------------------------------------------------------------- the stored checksum

  /** A 16-bit value stored at offset 4. */
  function Patched(b: seq<Byte>, v: nat): seq<Byte>
    requires |b| >= 6
  {
    b[..4] + Shorts([v]) + b[6..]
  }

  lemma {:induction false} PatchedInit(b: seq<Byte>, v: nat, n: nat)
    requires 6 <= n <= |b|
    ensures Patched(b, v)[..n] == Patched(b[..n], v)
  {
  }

  lemma {:induction false} WordsPatched(b: seq<Byte>, v: nat)
    requires |b| >= 6 && b[4] == 0 && b[5] == 0 && v < WORD
    ensures Words(Patched(b, v)) == Words(b) + v
    decreases |b|
  {
    hide Word, Shorts;
    var p := Patched(b, v);
    if |b| % 2 == 1 {
      PatchedInit(b, v, |b| - 1);
      WordsPatched(b[..|b| - 1], v);
    } else if |b| > 6 {
      PatchedInit(b, v, |b| - 2);
      WordsPatched(b[..|b| - 2], v);
    } else {
      NumberBack(v);
      ZeroWord();
      assert p[..4] == b[..4] && p[4..6] == Shorts([v]);
    }
  }

  lemma {:induction false} ZeroWord()
    ensures Word(0, 0) == 0
  {
  }

  /** The whole file before its checksum is stored. */
  function Unsigned(title: seq<Byte>, items: seq<Item>, w: Window, es: seq<Extra>): (b: seq<Byte>)
    ensures |b| >= 34 && b[4] == 0 && b[5] == 0
  {
    HeaderZero(title, items, w);
    Contents(title, items, w) + Extension(es)
  }

  /** The checksum's place is zero while the file is written. */
  lemma {:induction false} HeaderZero(title: seq<Byte>, items: seq<Item>, w: Window)
    ensures var b := Contents(title, items, w); |b| >= 34 && b[4] == 0 && b[5] == 0
  {
    hide Body, IconAt, TitleAt;
  }

  function GroupBytes(title: seq<Byte>, items: seq<Item>, w: Window, es: seq<Extra>): seq<Byte> {
    var b := Unsigned(title, items, w, es);
    Patched(b, Checksum(b))
  }

  /**
   The words of the finished file add up to 256 for each byte of 0x80 or above at an even position
   of the unsigned one: to zero exactly when those number a multiple of 256.
   */
  lemma {:induction false} FileSum(title: seq<Byte>, items: seq<Item>, w: Window, es: seq<Extra>)
    ensures var high := HighBytes(Unsigned(title, items, w, es));
      && Words(GroupBytes(title, items, w, es)) % WORD == (256 * high) % WORD
      && (Words(GroupBytes(title, items, w, es)) % WORD == 0 <==> high % 256 == 0)
  {
    hide Unsigned, Checksum, Words, HighBytes;
    var b := Unsigned(title, items, w, es);
    ChecksumIs(b);
    WordsPatched(b, Checksum(b));
    SumAgain(HighBytes(b), Words(b));
  }

  lemma {:induction false} SumAgain(high: nat, words: int)
    ensures var sum := words + (256 * high - words) % WORD;
      sum % WORD == (256 * high) % WORD && (sum % WORD == 0 <==> high % 256 == 0)
  {
    ModMinus(256 * high - words, -words);
    HighTimes(high, 0);
  }

  /** Storing the checksum leaves the rest of the header and the extension where they are. */
  lemma {:induction false} GroupParts(title: seq<Byte>, items: seq<Item>, w: Window, es: seq<Extra>)
    ensures var front := Contents(title, items, w); var v := Checksum(Unsigned(title, items, w, es));
      && |front| >= 34 && GroupBytes(title, items, w, es) == Patched(front, v) + Extension(es)
      && |Patched(front, v)| == |front| && ShortAt(GroupBytes(title, items, w, es), 6) == ShortAt(front, 6)
  {
    hide Contents, Extension, Checksum, Word, Shorts;
    HeaderZero(title, items, w);
    var front, v := Contents(title, items, w), Checksum(Unsigned(title, items, w, es));
    var file := GroupBytes(title, items, w, es);
    assert (front + Extension(es))[6..] == front[6..] + Extension(es) && (front + Extension(es))[..4] == front[..4];
    Associate(front[..4] + Shorts([v]), front[6..], Extension(es));
    assert file[6] == front[6] && file[7] == front[7];
  }

  /** The finished file's header points at its extension exactly when that offset fits 16 bits and the icons add up so. */
  lemma {:induction false} ExtensionReached(title: seq<Byte>, items: seq<Item>, w: Window, es: seq<Extra>)
    ensures var file, at := GroupBytes(title, items, w, es), |Contents(title, items, w)|;
      |file| >= 34 && (ShortAt(file, 6) == at <==> at < WORD && IconSizes(items, |items|) % WORD == 0)
  {
    hide Contents, ShortAt, IconSizes, Extension, Checksum;
    GroupParts(title, items, w, es);
    ExtensionField(title, items, w);
    ExtensionOffset(title, items, w);
  }

  /** Then the reader, starting where the header says, gets back what the writer was given. */
  lemma {:induction false} FileExtensionBack(title: seq<Byte>, items: seq<Item>, w: Window, es: seq<Extra>, k: nat)
    requires k < |es| <= 0xFFFF && forall i :: 0 <= i < |es| ==> Proper(es[i])
    requires |Contents(title, items, w)| < WORD && IconSizes(items, |items|) % WORD == 0
    ensures var file := GroupBytes(title, items, w, es);
      |file| >= 34 && Scan(file, ShortAt(file, 6), k, PLAIN) == Some(ReadBack(es[k]))
  {
    hide Contents, ShortAt, IconSizes, Extension, Checksum, Scan, Patched;
    GroupParts(title, items, w, es);
    ExtensionReached(title, items, w, es);
    ExtensionBack(Patched(Contents(title, items, w), Checksum(Unsigned(title, items, w, es))), es, k);
  }

  /** A hidden program (show command 0) comes back shown. */
  lemma {:induction false} ShowExample(front: seq<Byte>)
    ensures var hidden := Extra([], 0, 0);
      Scan(front + Extension([hidden]), |front|, 0, PLAIN) == Some(PLAIN) && PLAIN != hidden
  {
    ExtensionBack(front, [Extra([], 0, 0)], 0);
  }

  /** GRPFILE_DoWriteGroupFile */
  method WriteGroupFile(out: GroupWriter, title: seq<Byte>, items: seq<Item>, w: Window, es: seq<Extra>)
    requires out.Valid() && out.written == []
    modifies out
    ensures out.written == GroupBytes(title, items, w, es)
  {
    hide Contents, Extension, Checksum, Shorts;
    WriteGroup(out, title, items, w);
    WriteExtension(out, es);
    var checksum := out.sum;
    assert out.written == Unsigned(title, items, w, es);
    out.written := out.written[..4] + Shorts([checksum]) + out.written[6..];
  }
}
