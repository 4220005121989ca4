/**
 The command prompt's view of a disc: 2048-byte sectors holding ISO 9660 directory
 records (section 9.1 of ECMA-119), and the search for a name in a directory extent.
 */
module IsoDirectory {
  import opened Basics
  import opened WideText

  /** A C string or a counted name, as bytes. */
  type Chars = seq<Byte>

  const SECTOR: nat := 2048

  type Sector = s: seq<Byte> | |s| == SECTOR witness seq(SECTOR, _ => 0)

  /** Sectors that cannot be read are absent; beyond is the memory after a sector buffer. */
  datatype Disc = Disc(sectors: map<nat, Sector>, beyond: nat -> Byte)

  datatype Extent = Extent(lba: nat, size: nat)

  datatype Record = Record(name: Chars, extent: Extent, flags: Byte) {
    predicate IsDirectory() { flags / 2 % 2 == 1 }
  }

  function At(d: Disc, s: Sector, i: nat): Byte {
    if i < SECTOR then s[i] else d.beyond(i)
  }

  function Dword(d: Disc, s: Sector, i: nat): (r: nat)
    ensures r < UINT32
  {
    At(d, s, i) + 0x100 * At(d, s, i + 1) + 0x1_0000 * At(d, s, i + 2) + 0x100_0000 * At(d, s, i + 3)
  }

  /** At most n characters from i on, up to a NUL or the version separator. */
  function NameAt(d: Disc, s: Sector, i: nat, n: nat): (r: Chars)
    ensures |r| <= n
    ensures forall k :: 0 <= k < |r| ==> r[k] == At(d, s, i + k) && r[k] != SEMICOLON && r[k] != NUL
    ensures |r| < n ==> At(d, s, i + |r|) == SEMICOLON || At(d, s, i + |r|) == NUL
    decreases n
  {
    if n == 0 || At(d, s, i) == SEMICOLON || At(d, s, i) == NUL then [] else [At(d, s, i)] + NameAt(d, s, i + 1, n - 1)
  }

  function RecordAt(d: Disc, s: Sector, off: nat): Record {
    Record(NameAt(d, s, off + 33, At(d, s, off + 32)), Extent(Dword(d, s, off + 2), Dword(d, s, off + 10)), At(d, s, off + 25))
  }

  /** The chain of records of a sector from an offset on; a zero length byte ends it. */
  function Records(d: Disc, s: Sector, off: nat): seq<Record>
    decreases SECTOR - off
  {
    if off >= SECTOR || s[off] == 0 then [] else [RecordAt(d, s, off)] + Records(d, s, off + s[off])
  }

  function SectorCount(size: nat): nat {
    (size + 2047) % UINT32 / 2048
  }

  function Read(d: Disc, lba: nat): Option<Sector> {
    if lba % UINT32 in d.sectors then Some(d.sectors[lba % UINT32]) else None
  }

  /** The records of sectors i to n of a run, as far as they can be read. */
  function Listing(d: Disc, lba: nat, i: nat, n: nat): seq<Record>
    decreases n - i
  {
    if i >= n || Read(d, lba + i).None? then [] else
    Records(d, Read(d, lba + i).value, 0) + Listing(d, lba, i + 1, n)
  }

  function DirectoryRecords(d: Disc, dir: Extent): seq<Record> {
    Listing(d, dir.lba, 0, SectorCount(dir.size))
  }

  function Upper(t: Chars): (r: Chars)
    ensures |r| == |t|
    ensures forall i :: 0 <= i < |t| ==> r[i] == Fold(t[i])
  {
    seq(|t|, i requires 0 <= i < |t| => Fold(t[i]))
  }

  predicate SameChars(a: Chars, b: Chars) {
    Upper(a) == Upper(b)
  }

  function FirstNamed(rs: seq<Record>, name: Chars): Option<Record> {
    if rs == [] then None else if SameChars(name, rs[0].name) then Some(rs[0]) else FirstNamed(rs[1..], name)
  }

  function Lookup(d: Disc, dir: Extent, name: Chars): Option<Record> {
    FirstNamed(DirectoryRecords(d, dir), name)
  }

  lemma {:induction false} FirstNamedConcat(a: seq<Record>, b: seq<Record>, name: Chars)
    ensures FirstNamed(a + b, name) == if FirstNamed(a, name).Some? then FirstNamed(a, name) else FirstNamed(b, name)
  {
    if a == [] {
      assert a + b == b;
    } else {
      assert (a + b)[1..] == a[1..] + b;
      FirstNamedConcat(a[1..], b, name);
    }
  }

  /** A name that no earlier record carries leads to its record. */
  lemma {:induction false} FirstNamedAt(rs: seq<Record>, name: Chars, i: nat)
    requires i < |rs| && SameChars(name, rs[i].name) && forall k :: 0 <= k < i ==> !SameChars(name, rs[k].name)
    ensures FirstNamed(rs, name) == Some(rs[i])
  {
    if i > 0 {
      assert rs[1..][i - 1] == rs[i];
      assert forall k :: 0 <= k < i - 1 ==> rs[1..][k] == rs[k + 1];
      FirstNamedAt(rs[1..], name, i - 1);
    }
  }

  lemma {:induction false} FirstNamedNone(rs: seq<Record>, name: Chars)
    ensures FirstNamed(rs, name).None? <==> forall k :: 0 <= k < |rs| ==> !SameChars(name, rs[k].name)
  {
    if rs != [] {
      FirstNamedNone(rs[1..], name);
      assert forall k :: 1 <= k < |rs| ==> rs[k] == rs[1..][k - 1];
    }
  }

  // ------------------------------------------------------------------ the search

  /** cmd_path_name_equal */
  method NameEqual(a: Chars, b: Chars) returns (r: bool)
    ensures r <==> SameChars(a, b)
  {
    var i := 0;
    while i < |a| && i < |b|
      invariant 0 <= i <= |a| && i <= |b|
      invariant forall k :: 0 <= k < i ==> Fold(a[k]) == Fold(b[k])
    {
      if Fold(a[i]) != Fold(b[i]) {
        assert Upper(a)[i] != Upper(b)[i];
        return false;
      }
      i := i + 1;
    }
    r := i == |a| && i == |b|;
    if r { assert Upper(a) == Upper(b); } else { assert |Upper(a)| != |Upper(b)|; }
  }

  /** The loop that copies a record's name out of the sector. */
  method CopyName(d: Disc, s: Sector, off: nat) returns (entry: Chars)
    ensures entry == NameAt(d, s, off + 33, At(d, s, off + 32))
  {
    hide At;
    var n := At(d, s, off + 32);
    var i := 0;
    entry := [];
    while i < n && At(d, s, off + 33 + i) != SEMICOLON && At(d, s, off + 33 + i) != NUL
      invariant 0 <= i <= n
      invariant entry + NameAt(d, s, off + 33 + i, n - i) == NameAt(d, s, off + 33, n)
    {
      ghost var rest := NameAt(d, s, off + 33 + i + 1, n - i - 1);
      assert entry + [At(d, s, off + 33 + i)] + rest == entry + ([At(d, s, off + 33 + i)] + rest);
      entry := entry + [At(d, s, off + 33 + i)];
      i := i + 1;
    }
  }

  /** The record loop of sector_find_entry within one sector. */
  method FindInSector(d: Disc, s: Sector, name: Chars) returns (r: Option<Record>)
    ensures r == FirstNamed(Records(d, s, 0), name)
  {
    var off := 0;
    while off < SECTOR && s[off] != 0
      invariant FirstNamed(Records(d, s, 0), name) == FirstNamed(Records(d, s, off), name)
      decreases SECTOR - off
    {
      var entry := CopyName(d, s, off);
      var same := NameEqual(name, entry);
      ghost var rs := Records(d, s, off);
      assert rs[0] == RecordAt(d, s, off) && rs[1..] == Records(d, s, off + s[off]);
      if same {
        return Some(Record(entry, Extent(Dword(d, s, off + 2), Dword(d, s, off + 10)), At(d, s, off + 25)));
      }
      off := off + s[off];
    }
    return None;
  }

  /** sector_find_entry: the first record of that name, unless an unreadable sector comes first. */
  method FindEntry(d: Disc, dir: Extent, name: Chars) returns (r: Option<Record>)
    ensures r == Lookup(d, dir, name)
  {
    hide Records, FirstNamed;
    var sectors := SectorCount(dir.size);
    var s := 0;
    while s < sectors
      invariant 0 <= s <= sectors
      invariant Lookup(d, dir, name) == FirstNamed(Listing(d, dir.lba, s, sectors), name)
    {
      var sector := Read(d, dir.lba + s);
      if sector.None? {
        FirstNamedNone([], name);
        return None;
      }
      FirstNamedConcat(Records(d, sector.value, 0), Listing(d, dir.lba, s + 1, sectors), name);
      r := FindInSector(d, sector.value, name);
      if r.Some? { return; }
      s := s + 1;
    }
    FirstNamedNone([], name);
    return None;
  }

  // ------------------------------------------------- the layout the standard prescribes

  function Big(x: nat): (b: seq<Byte>)
    requires x < UINT32
    ensures |b| == 4
  {
    [x / 0x100_0000, x / 0x1_0000 % 0x100, x / 0x100 % 0x100, x % 0x100]
  }

  /** What a directory record holds: file identifier, version suffix, extent, recording date and flags. */
  datatype Written = Written(name: Chars, version: Chars, extent: Extent, date: seq<Byte>, flags: Byte) {
    predicate Valid() {
      && extent.lba < UINT32 && extent.size < UINT32 && |date| == 7
      && name != [] && NUL !in name && SEMICOLON !in name
      && (version == [] || version[0] == SEMICOLON)
      && 33 + |name| + |version| + 1 < 256
    }

    function Read(): Record { Record(name, extent, flags) }
  }

  /** A directory record, padded to an even length. */
  function Encode(w: Written): (b: seq<Byte>)
    requires w.Valid()
    ensures 33 < |b| < 256 && b[0] == |b|
  {
    var id := w.name + w.version;
    var pad: seq<Byte> := if |id| % 2 == 0 then [0] else [];
    [33 + |id| + |pad|, 0] + (Little(w.extent.lba) + Big(w.extent.lba)) + (Little(w.extent.size) + Big(w.extent.size))
    + w.date + [w.flags, 0, 0, 1, 0, 0, 1, |id|] + id + pad
  }

  function ReadAll(ws: seq<Written>): (r: seq<Record>)
    ensures |r| == |ws|
  {
    if ws == [] then [] else [ws[0].Read()] + ReadAll(ws[1..])
  }

  ghost predicate Laid(s: Sector, off: nat, w: Written) {
    w.Valid() && off + |Encode(w)| <= SECTOR && s[off..off + |Encode(w)|] == Encode(w)
  }

  /** A sector from an offset on: these records back to back, then a zero byte unless the sector is full. */
  ghost predicate Holds(s: Sector, off: nat, ws: seq<Written>)
    decreases |ws|
  {
    if ws == [] then off == SECTOR || (off < SECTOR && s[off] == 0)
    else Laid(s, off, ws[0]) && Holds(s, off + s[off], ws[1..])
  }

  lemma {:induction false} DwordLittle(d: Disc, s: Sector, i: nat, x: nat)
    requires x < UINT32 && i + 4 <= SECTOR && s[i..i + 4] == Little(x)
    ensures Dword(d, s, i) == x
  {
    var b := s[i..i + 4];
    assert s[i] == b[0] && s[i + 1] == b[1] && s[i + 2] == b[2] && s[i + 3] == b[3];
    Quarters(x);
  }

  lemma {:induction false} NameAtIs(d: Disc, s: Sector, i: nat, n: nat, name: Chars)
    requires |name| <= n && NUL !in name && SEMICOLON !in name
    requires forall k :: 0 <= k < |name| ==> At(d, s, i + k) == name[k]
    requires |name| < n ==> At(d, s, i + |name|) == SEMICOLON
    ensures NameAt(d, s, i, n) == name
    decreases n
  {
    if name != [] {
      assert At(d, s, i) == At(d, s, i + 0) == name[0] && name[0] in name;
      forall k | 0 <= k < |name[1..]| ensures At(d, s, i + 1 + k) == name[1..][k] {
        assert i + 1 + k == i + (k + 1);
      }
      NameAtIs(d, s, i + 1, n - 1, name[1..]);
    }
  }

  /** Where the fields of an encoded record lie. */
  ghost predicate Fields(b: seq<Byte>, w: Written)
    requires w.Valid()
  {
    var id := w.name + w.version;
    && 33 + |id| <= |b| && b[2..6] == Little(w.extent.lba) && b[10..14] == Little(w.extent.size)
    && b[25] == w.flags && b[32] == |id| && b[33..33 + |id|] == id
  }

  lemma {:induction false} EncodeFields(w: Written)
    requires w.Valid()
    ensures Fields(Encode(w), w)
  {
    var b := Encode(w);
    var id := w.name + w.version;
    var head := [b[0], 0] + (Little(w.extent.lba) + Big(w.extent.lba));
    var mid := head + (Little(w.extent.size) + Big(w.extent.size));
    var tail := mid + w.date + [w.flags, 0, 0, 1, 0, 0, 1, |id|];
    assert |head| == 10 && |mid| == 18 && |tail| == 33;
    assert tail <= b;
    assert head[2..6] == Little(w.extent.lba);
    assert mid[10..14] == Little(w.extent.size);
    assert b[2..6] == head[2..6];
    assert b[10..14] == mid[10..14];
    assert b[25] == tail[25] == w.flags && b[32] == tail[32] == |id|;
    assert b[33..33 + |id|] == id;
  }

  lemma {:induction false} Slice(s: seq<Byte>, off: nat, b: seq<Byte>, i: nat, j: nat)
    requires off + |b| <= |s| && s[off..off + |b|] == b && i <= j <= |b|
    ensures s[off + i..off + j] == b[i..j]
  {
    forall k | 0 <= k < j - i ensures s[off + i..off + j][k] == b[i..j][k] {
      assert s[off + (i + k)] == s[off..off + |b|][i + k];
    }
  }

  lemma {:induction false} ReadName(d: Disc, s: Sector, off: nat, b: seq<Byte>, w: Written)
    requires w.Valid() && Fields(b, w) && off + |b| <= SECTOR && s[off..off + |b|] == b
    ensures NameAt(d, s, off + 33, b[32]) == w.name
  {
    var id := w.name + w.version;
    Slice(s, off, b, 33, 33 + |id|);
    forall k | 0 <= k < |id| ensures At(d, s, off + 33 + k) == id[k] {
      assert s[off + 33..off + 33 + |id|][k] == id[k];
    }
    forall k | 0 <= k < |w.name| ensures At(d, s, off + 33 + k) == w.name[k] { assert id[k] == w.name[k]; }
    if w.version != [] {
      assert id[|w.name|] == SEMICOLON;
      assert At(d, s, off + 33 + |w.name|) == SEMICOLON;
    }
    NameAtIs(d, s, off + 33, |id|, w.name);
  }

  lemma {:induction false} ReadFields(d: Disc, s: Sector, off: nat, b: seq<Byte>, w: Written)
    requires w.Valid() && Fields(b, w) && off + |b| <= SECTOR && s[off..off + |b|] == b
    ensures RecordAt(d, s, off) == w.Read()
  {
    Slice(s, off, b, 2, 6);
    Slice(s, off, b, 10, 14);
    assert s[off..off + |b|][25] == s[off + 25] && s[off..off + |b|][32] == s[off + 32];
    DwordLittle(d, s, off + 2, w.extent.lba);
    DwordLittle(d, s, off + 10, w.extent.size);
    ReadName(d, s, off, b, w);
  }

  /** A record written as the standard prescribes is read back: name without version, extent and flags. */
  lemma {:induction false} ReadRecord(d: Disc, s: Sector, off: nat, w: Written)
    requires Laid(s, off, w)
    ensures off < SECTOR && s[off] != 0 && RecordAt(d, s, off) == w.Read()
  {
    EncodeFields(w);
    assert s[off..off + |Encode(w)|][0] == s[off];
    ReadFields(d, s, off, Encode(w), w);
  }

  /** Reading a sector written as the standard prescribes gives back its records, in order. */
  lemma {:induction false} ReadSector(d: Disc, s: Sector, off: nat, ws: seq<Written>)
    requires Holds(s, off, ws)
    ensures Records(d, s, off) == ReadAll(ws)
    decreases |ws|
  {
    hide RecordAt, Laid;
    if ws != [] {
      assert Laid(s, off, ws[0]);
      ReadRecord(d, s, off, ws[0]);
      var next := off + s[off];
      ReadSector(d, s, next, ws[1..]);
    }
  }

  /** A readable sector holding these records. */
  ghost predicate Stored(d: Disc, lba: nat, ws: seq<Written>) {
    Read(d, lba).Some? && Holds(Read(d, lba).value, 0, ws)
  }

  lemma {:induction false} ReadAllConcat(a: seq<Written>, b: seq<Written>)
    ensures ReadAll(a + b) == ReadAll(a) + ReadAll(b)
  {
    if a == [] {
      assert a + b == b;
    } else {
      assert (a + b)[1..] == a[1..] + b;
      ReadAllConcat(a[1..], b);
    }
  }

  /** Reading a whole directory extent gives back the records of all its sectors. */
  lemma {:induction false} ReadDirectory(d: Disc, lba: nat, i: nat, wss: seq<seq<Written>>)
    requires i <= |wss| && forall k :: 0 <= k < |wss| ==> Stored(d, lba + k, wss[k])
    ensures Listing(d, lba, i, |wss|) == ReadAll(Concat(wss[i..]))
    decreases |wss| - i
  {
    if i < |wss| {
      assert Stored(d, lba + i, wss[i]);
      ReadSector(d, Read(d, lba + i).value, 0, wss[i]);
      ReadDirectory(d, lba, i + 1, wss);
      assert wss[i..][1..] == wss[i + 1..];
      ReadAllConcat(wss[i], Concat(wss[i + 1..]));
    }
  }

  /** Every file written in a directory, under a name no earlier record carries, is found with its extent and flags. */
  lemma {:induction false} FindWritten(d: Disc, dir: Extent, wss: seq<seq<Written>>, i: nat, name: Chars)
    requires SectorCount(dir.size) == |wss|
    requires forall k :: 0 <= k < |wss| ==> Stored(d, dir.lba + k, wss[k])
    requires var ws := Concat(wss);
      i < |ws| && SameChars(name, ws[i].name) && forall k :: 0 <= k < i ==> !SameChars(name, ws[k].name)
    ensures Lookup(d, dir, name) == Some(Concat(wss)[i].Read())
  {
    var ws := Concat(wss);
    ReadDirectory(d, dir.lba, 0, wss);
    assert wss[0..] == wss;
    forall k | 0 <= k < |ws| ensures ReadAll(ws)[k] == ws[k].Read() { ReadAllAt(ws, k); }
    FirstNamedAt(ReadAll(ws), name, i);
  }

  lemma {:induction false} ReadAllAt(ws: seq<Written>, k: nat)
    requires k < |ws|
    ensures ReadAll(ws)[k] == ws[k].Read()
  {
    if k > 0 { ReadAllAt(ws[1..], k - 1); }
  }
}
