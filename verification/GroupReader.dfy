/**
 What the reader of group files finds in a file of the writer: the window, the title, and
 for each program its place, icon and strings, through the offsets it follows.
 */
module GroupReader {
  import opened Basics
  import opened WideText
  import opened GroupFile
  import opened GroupLayout
  import opened GroupExtension

  /** The parts of a group that ScanGroup takes from the front of the file. */
  datatype Front = Front(magic: seq<Byte>, window: Window, title: seq<Byte>, count: nat)

  /** The parts of a program that ScanProgram takes from its entry. */
  datatype Seen = Seen(x: nat, y: nat, iconIndex: nat, iconType: nat, name: seq<Byte>, command: seq<Byte>, iconFile: seq<Byte>)

  /** The string that starts at an offset, up to its NUL. */
  function StringAt(file: seq<Byte>, i: nat): seq<Byte> {
    if i <= |file| then ByteString(file[i..]) else []
  }

  function ScanFront(file: seq<Byte>): Front
    requires |file| >= 34
  {
    Front(file[..4],
      Window(ShortAt(file, 8), ShortAt(file, 10), ShortAt(file, 12), ShortAt(file, 14), ShortAt(file, 16), ShortAt(file, 18), ShortAt(file, 20)),
      StringAt(file, ShortAt(file, 22)), ShortAt(file, 32))
  }

  function ScanEntry(file: seq<Byte>, at: nat): Seen
    requires at + 24 <= |file|
  {
    Seen(ShortAt(file, at), ShortAt(file, at + 2), ShortAt(file, at + 4), ShortAt(file, at + 6),
      StringAt(file, ShortAt(file, at + 18)), StringAt(file, ShortAt(file, at + 20)), StringAt(file, ShortAt(file, at + 22)))
  }

  /** A file that holds these bytes at its front, the checksum excepted. */
  ghost predicate Holds(file: seq<Byte>, c: seq<Byte>) {
    |file| >= |c| >= 34 && file[..4] == c[..4] && forall i :: 6 <= i < |c| ==> file[i] == c[i]
  }

  // ----------------------------------------------------------------------- strings

  lemma {:induction false} StringFound(file: seq<Byte>, i: nat, t: seq<Byte>)
    requires i + |t| + 1 <= |file| && file[i..i + |t| + 1] == Terminated(t) && NUL !in t
    ensures StringAt(file, i) == t
  {
    var b := file[i..];
    var s := ByteString(b);
    assert b[..|t| + 1] == Terminated(t);
    assert forall k :: 0 <= k < |t| ==> b[k] == b[..|t| + 1][k] == t[k];
    assert b[|t|] == b[..|t| + 1][|t|] == 0;
    StringEnds(b, |t|);
    assert s == t;
  }

  lemma {:induction false} StringEnds(b: seq<Byte>, n: nat)
    requires n < |b| && b[n] == 0 && forall k :: 0 <= k < n ==> b[k] != 0
    ensures |ByteString(b)| == n && ByteString(b) == b[..n]
  {
    var s := CString(b);
    assert |s| < |b|;
    assert !(|s| < n);
    assert forall k :: 0 <= k < |s| ==> s[k] == b[k] && s[k] in s;
    assert !(|s| > n);
  }

  lemma {:induction false} SameShort(file: seq<Byte>, c: seq<Byte>, i: nat)
    requires Holds(file, c) && 6 <= i && i + 2 <= |c|
    ensures ShortAt(file, i) == ShortAt(c, i)
  {
    hide Word;
  }

  lemma {:induction false} SameSlice(file: seq<Byte>, c: seq<Byte>, i: nat, j: nat)
    requires Holds(file, c) && 6 <= i <= j <= |c|
    ensures file[i..j] == c[i..j]
  {
  }

  // ------------------------------------------------------------------------ the front

  /** The fifteen words of the header. */
  function HeaderWords(title: seq<Byte>, items: seq<Item>, w: Window): (vs: seq<nat>)
    ensures |vs| == 15
  {
    [0, IconAt(title, items, |items|), w.show, w.x, w.y, w.width, w.height, w.iconX, w.iconY,
     TitleAt(items), 0x20, 0x20, 0x108, 0, |items|]
  }

  lemma {:induction false} HeaderWord(title: seq<Byte>, items: seq<Item>, w: Window, file: seq<Byte>, i: nat)
    requires Holds(file, Contents(title, items, w)) && 1 <= i < 15
    ensures ShortAt(file, 4 + 2 * i) == HeaderWords(title, items, w)[i] % WORD
  {
    hide Word, Shorts, Body;
    var vs := HeaderWords(title, items, w);
    var c := Contents(title, items, w);
    ShortsAt(vs, i);
    assert Header(title, items, w) == [80, 77, 67, 67] + Shorts(vs);
    assert c[4 + 2 * i] == Shorts(vs)[2 * i] && c[5 + 2 * i] == Shorts(vs)[2 * i + 1];
  }

  lemma {:induction false} TitleThere(title: seq<Byte>, items: seq<Item>, w: Window)
    ensures var c, at := Contents(title, items, w), TitleAt(items);
      at + |title| + 1 <= |c| && c[at..at + |title| + 1] == Terminated(title)
  {
    var h, t, es := Header(title, items, w), Table(title, items, |items|), Entries(title, items, |items|);
    assert Contents(title, items, w) == (h + t) + Terminated(title) + es;
    SliceLeft((h + t) + Terminated(title), es, |h + t|, |h + t| + |title| + 1);
    SliceRight(h + t, Terminated(title), 0, |title| + 1);
  }

  /** The low 16 bits of each field, as they are stored. */
  function Stored(w: Window): Window {
    Window(w.show % WORD, w.x % WORD, w.y % WORD, w.width % WORD, w.height % WORD, w.iconX % WORD, w.iconY % WORD)
  }

  lemma {:induction false} HeaderStart(title: seq<Byte>, items: seq<Item>, w: Window)
    ensures |Contents(title, items, w)| >= 34 && Contents(title, items, w)[..4] == [80, 77, 67, 67]
  {
  }

  /** The reader finds the magic PMCC, the window, the title and the number of programs. */
  lemma {:induction false} FrontBack(title: seq<Byte>, items: seq<Item>, w: Window, file: seq<Byte>)
    requires Holds(file, Contents(title, items, w)) && |Contents(title, items, w)| < WORD && NUL !in title
    ensures ScanFront(file) == Front([80, 77, 67, 67], Stored(w), title, |items|)
  {
    hide Contents, ShortAt, StringAt, Header;
    HeaderStart(title, items, w);
    HeaderWord(title, items, w, file, 2);
    HeaderWord(title, items, w, file, 3);
    HeaderWord(title, items, w, file, 4);
    HeaderWord(title, items, w, file, 5);
    HeaderWord(title, items, w, file, 6);
    HeaderWord(title, items, w, file, 7);
    HeaderWord(title, items, w, file, 8);
    HeaderWord(title, items, w, file, 9);
    HeaderWord(title, items, w, file, 14);
    TitleThere(title, items, w);
    var at := TitleAt(items);
    SameSlice(file, Contents(title, items, w), at, at + |title| + 1);
    StringFound(file, at, title);
  }

  // --------------------------------------------------------------------- the programs

  predicate PlainItem(it: Item) {
    NUL !in it.name && NUL !in it.command && NUL !in it.iconFile
  }

  lemma {:induction false} EntryWord(it: Item, at: nat, icon: nat, i: nat)
    requires i < 12
    ensures ShortAt(Entry(it, at, icon), 2 * i) == Fields(it, at, icon)[i] % WORD
  {
    hide Word, Shorts;
    var vs := Fields(it, at, icon);
    ShortsAt(vs, i);
    assert Entry(it, at, icon)[2 * i] == Shorts(vs)[2 * i] && Entry(it, at, icon)[2 * i + 1] == Shorts(vs)[2 * i + 1];
  }

  lemma {:induction false} ShortInside(file: seq<Byte>, at: nat, e: seq<Byte>, i: nat)
    requires at + |e| <= |file| && file[at..at + |e|] == e && i + 2 <= |e|
    ensures ShortAt(file, at + i) == ShortAt(e, i)
  {
    hide Word;
    assert file[at + i] == file[at..at + |e|][i] && file[at + i + 1] == file[at..at + |e|][i + 1];
  }

  lemma {:induction false} StringInside(file: seq<Byte>, at: nat, e: seq<Byte>, i: nat, t: seq<Byte>)
    requires at + |e| <= |file| && file[at..at + |e|] == e && i + |t| + 1 <= |e| && e[i..i + |t| + 1] == Terminated(t) && NUL !in t
    ensures StringAt(file, at + i) == t
  {
    hide StringAt;
    var x, y := file[at + i..at + i + |t| + 1], e[i..i + |t| + 1];
    forall k | 0 <= k < |x| ensures x[k] == y[k] { assert file[at..at + |e|][i + k] == file[at + i + k]; }
    assert x == y;
    StringFound(file, at + i, t);
  }

  /** The strings of an entry, by the offsets stored in it. */
  lemma {:induction false} StringsBack(file: seq<Byte>, it: Item, at: nat, icon: nat)
    requires var e := Entry(it, at, icon); at + |e| <= |file| && at + |e| < WORD && file[at..at + |e|] == e
    requires PlainItem(it)
    ensures StringAt(file, ShortAt(file, at + 18)) == it.name
    ensures StringAt(file, ShortAt(file, at + 20)) == it.command
    ensures StringAt(file, ShortAt(file, at + 22)) == it.iconFile
  {
    hide Entry, StringAt, ShortAt, Terminated;
    var e := Entry(it, at, icon);
    StringsFound(it, at, icon);
    ShortInside(file, at, e, 18);
    ShortInside(file, at, e, 20);
    ShortInside(file, at, e, 22);
    var command := 24 + |it.name| + 1;
    var icons := command + |it.command| + 1;
    assert e[icons..icons + |it.iconFile| + 1] == e[icons..];
    StringInside(file, at, e, 24, it.name);
    StringInside(file, at, e, command, it.command);
    StringInside(file, at, e, icons, it.iconFile);
  }

  lemma {:induction false} EntryBack(file: seq<Byte>, it: Item, at: nat, icon: nat)
    requires var e := Entry(it, at, icon); at + |e| <= |file| && at + |e| < WORD && file[at..at + |e|] == e
    requires PlainItem(it)
    ensures ScanEntry(file, at) == Seen(it.x % WORD, it.y % WORD, it.iconIndex % WORD, 0x48C, it.name, it.command, it.iconFile)
  {
    hide Entry, StringAt, ShortAt;
    var e := Entry(it, at, icon);
    StringsBack(file, it, at, icon);
    EntryWord(it, at, icon, 0);
    EntryWord(it, at, icon, 1);
    EntryWord(it, at, icon, 2);
    EntryWord(it, at, icon, 3);
    ShortInside(file, at, e, 0);
    ShortInside(file, at, e, 2);
    ShortInside(file, at, e, 4);
    ShortInside(file, at, e, 6);
  }

  /** For every program, the entry its table word leads to holds its place, its icon and its three strings. */
  lemma {:induction false} ProgramBack(title: seq<Byte>, items: seq<Item>, w: Window, file: seq<Byte>, k: nat)
    requires Holds(file, Contents(title, items, w)) && |Contents(title, items, w)| < WORD && k < |items| && PlainItem(items[k])
    ensures 34 + 2 * k + 2 <= |file| && ShortAt(file, 34 + 2 * k) + 24 <= |file|
    ensures var it := items[k];
      ScanEntry(file, ShortAt(file, 34 + 2 * k)) ==
        Seen(it.x % WORD, it.y % WORD, it.iconIndex % WORD, 0x48C, it.name, it.command, it.iconFile)
  {
    hide Contents, ShortAt, Entry, EntryAt, IconAt, ScanEntry;
    EntryFound(title, items, w, k);
    var c, at := Contents(title, items, w), EntryAt(title, items, k);
    SameShort(file, c, 34 + 2 * k);
    EntryBehind(title, items, k);
    SameSlice(file, c, at, at + EntrySize(items[k]));
    EntryBack(file, items[k], at, IconAt(title, items, k));
  }

  lemma {:induction false} EntryBehind(title: seq<Byte>, items: seq<Item>, k: nat)
    requires k <= |items|
    ensures EntryAt(title, items, k) >= 34
  {
  }

  /** The whole file as it is written, with its checksum and its extension, holds all of this. */
  lemma {:induction false} GroupFileBack(title: seq<Byte>, items: seq<Item>, w: Window, es: seq<Extra>, k: nat)
    requires |Contents(title, items, w)| < WORD && NUL !in title && (k < |items| ==> PlainItem(items[k]))
    ensures var file := GroupBytes(title, items, w, es);
      && |file| >= 34 && ScanFront(file) == Front([80, 77, 67, 67], Stored(w), title, |items|)
      && (k < |items| ==>
            && 34 + 2 * k + 2 <= |file| && ShortAt(file, 34 + 2 * k) + 24 <= |file|
            && var it := items[k];
               ScanEntry(file, ShortAt(file, 34 + 2 * k)) ==
                 Seen(it.x % WORD, it.y % WORD, it.iconIndex % WORD, 0x48C, it.name, it.command, it.iconFile))
  {
    hide Contents, ShortAt, ScanFront, ScanEntry;
    var file := GroupBytes(title, items, w, es);
    FileHolds(title, items, w, es);
    FrontBack(title, items, w, file);
    if k < |items| { ProgramBack(title, items, w, file, k); }
  }

  lemma {:induction false} FileHolds(title: seq<Byte>, items: seq<Item>, w: Window, es: seq<Extra>)
    ensures Holds(GroupBytes(title, items, w, es), Contents(title, items, w))
  {
    hide Contents, Extension, Checksum;
    HeaderStart(title, items, w);
  }
}
