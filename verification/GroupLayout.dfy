/**
 The layout of a group file: header, program table, title, then one entry per program
 with its strings, each found through 16-bit offsets.
 */
module GroupLayout {
  import opened Basics
  import opened WideText
  import opened GroupFile

  /** A program as the writer sees it; the sizes are those of its icon's two bitmaps. */
  datatype Item = Item(x: nat, y: nat, iconIndex: nat, name: seq<Byte>, command: seq<Byte>, iconFile: seq<Byte>,
                       sizeAnd: nat, sizeXor: nat)

  /** Header fields that the offsets do not depend on. */
  datatype Window = Window(show: nat, x: nat, y: nat, width: nat, height: nat, iconX: nat, iconY: nat)

  /** A row of PUT_SHORT, which keeps the low 16 bits. */
  function Shorts(vs: seq<nat>): (b: seq<Byte>)
    ensures |b| == 2 * |vs|
  {
    if vs == [] then [] else [vs[0] % 256, vs[0] / 256 % 256] + Shorts(vs[1..])
  }

  lemma {:induction false} ShortsAt(vs: seq<nat>, i: nat)
    requires i < |vs|
    ensures ShortAt(Shorts(vs), 2 * i) == vs[i] % WORD
  {
    hide Word;
    if i > 0 {
      ShortsAt(vs[1..], i - 1);
      assert vs[1..][i - 1] == vs[i];
    } else {
      ShortBytes(vs[0]);
    }
  }

  lemma {:induction false} ShortBytes(v: nat)
    ensures Word(v % 256, v / 256 % 256) == v % WORD
  {
  }

  function ShortAt(b: seq<Byte>, i: nat): nat
    requires i + 2 <= |b|
  {
    Word(b[i], b[i + 1])
  }

  // ------------------------------------------------------------------------ offsets

  function EntrySize(it: Item): nat {
    24 + (|it.name| + 1) + (|it.command| + 1) + (|it.iconFile| + 1)
  }

  function IconSize(it: Item): nat {
    12 + it.sizeAnd + it.sizeXor
  }

  /** The entries of the first k programs together. */
  function EntrySizes(items: seq<Item>, k: nat): nat
    requires k <= |items|
  {
    if k == 0 then 0 else EntrySizes(items, k - 1) + EntrySize(items[k - 1])
  }

  function IconSizes(items: seq<Item>, k: nat): nat
    requires k <= |items|
  {
    if k == 0 then 0 else IconSizes(items, k - 1) + IconSize(items[k - 1])
  }

  function TitleAt(items: seq<Item>): nat { 34 + 2 * |items| }

  function EntriesAt(title: seq<Byte>, items: seq<Item>): nat { TitleAt(items) + |title| + 1 }

  function EntryAt(title: seq<Byte>, items: seq<Item>, k: nat): nat
    requires k <= |items|
  {
    EntriesAt(title, items) + EntrySizes(items, k)
  }

  /** Where the writer believes icon k and, for the last, the extension to be. */
  function IconAt(title: seq<Byte>, items: seq<Item>, k: nat): nat
    requires k <= |items|
  {
    EntryAt(title, items, |items|) + IconSizes(items, k)
  }

  // ------------------------------------------------------------------- what is written

  function Header(title: seq<Byte>, items: seq<Item>, w: Window): (b: seq<Byte>)
    ensures |b| == 34
  {
    [80, 77, 67, 67] + Shorts([0, IconAt(title, items, |items|), w.show, w.x, w.y, w.width, w.height, w.iconX, w.iconY,
                               TitleAt(items), 0x20, 0x20, 0x108, 0, |items|])
  }

  function Table(title: seq<Byte>, items: seq<Item>, k: nat): (b: seq<Byte>)
    requires k <= |items|
    ensures |b| == 2 * k
  {
    if k == 0 then [] else Table(title, items, k - 1) + Shorts([EntryAt(title, items, k - 1)])
  }

  function Terminated(t: seq<Byte>): seq<Byte> { t + [0] }

  /** The fields of an entry that starts at one offset and whose icon would start at another. */
  function Fields(it: Item, at: nat, icon: nat): (vs: seq<nat>)
    ensures |vs| == 12
  {
    [it.x, it.y, it.iconIndex, 0x48C, it.sizeXor, it.sizeAnd * 8, icon, icon + 12 + it.sizeAnd, icon + 12,
     at + 24, at + 24 + |it.name| + 1, at + 24 + |it.name| + 1 + |it.command| + 1]
  }

  function Entry(it: Item, at: nat, icon: nat): (b: seq<Byte>)
    ensures |b| == EntrySize(it)
  {
    Shorts(Fields(it, at, icon)) + Terminated(it.name) + Terminated(it.command) + Terminated(it.iconFile)
  }

  function Entries(title: seq<Byte>, items: seq<Item>, k: nat): (b: seq<Byte>)
    requires k <= |items|
    ensures |b| == EntrySizes(items, k)
  {
    if k == 0 then [] else
    Entries(title, items, k - 1) + Entry(items[k - 1], EntryAt(title, items, k - 1), IconAt(title, items, k - 1))
  }

  /** What follows the header, up to where icons or the extension would be. */
  function Body(title: seq<Byte>, items: seq<Item>): (b: seq<Byte>)
    ensures |b| == EntryAt(title, items, |items|) - 34
  {
    Table(title, items, |items|) + Terminated(title) + Entries(title, items, |items|)
  }

  function Contents(title: seq<Byte>, items: seq<Item>, w: Window): seq<Byte> {
    Header(title, items, w) + Body(title, items)
  }

  // ----------------------------------------------------------------- where things are

  lemma {:induction false} TableEntry(title: seq<Byte>, items: seq<Item>, n: nat, k: nat)
    requires k < n <= |items|
    ensures ShortAt(Table(title, items, n), 2 * k) == EntryAt(title, items, k) % WORD
  {
    if k < n - 1 {
      TableEntry(title, items, n - 1, k);
    } else {
      ShortsAt([EntryAt(title, items, k)], 0);
    }
  }

  lemma {:induction false} EntriesEntry(title: seq<Byte>, items: seq<Item>, n: nat, k: nat)
    requires k < n <= |items|
    ensures EntrySizes(items, k) + EntrySize(items[k]) <= EntrySizes(items, n)
    ensures Entries(title, items, n)[EntrySizes(items, k)..EntrySizes(items, k) + EntrySize(items[k])] ==
      Entry(items[k], EntryAt(title, items, k), IconAt(title, items, k))
  {
    hide Entry, IconAt, EntryAt;
    var last := Entry(items[n - 1], EntryAt(title, items, n - 1), IconAt(title, items, n - 1));
    if k < n - 1 {
      EntriesEntry(title, items, n - 1, k);
      SliceLeft(Entries(title, items, n - 1), last, EntrySizes(items, k), EntrySizes(items, k) + EntrySize(items[k]));
    } else {
      SliceRight(Entries(title, items, n - 1), last, 0, |last|);
    }
  }

  lemma {:induction false} SliceLeft(a: seq<Byte>, b: seq<Byte>, i: nat, j: nat)
    requires i <= j <= |a|
    ensures (a + b)[i..j] == a[i..j]
  {
  }

  lemma {:induction false} SliceRight(a: seq<Byte>, b: seq<Byte>, i: nat, j: nat)
    requires i <= j <= |b|
    ensures (a + b)[|a| + i..|a| + j] == b[i..j]
  {
  }

  lemma {:induction false} BodyParts(title: seq<Byte>, items: seq<Item>, k: nat)
    requires k < |items|
    ensures var body := Body(title, items); var at := EntryAt(title, items, k) - 34;
      && 2 * k + 2 <= |body| && ShortAt(body, 2 * k) == EntryAt(title, items, k) % WORD
      && at + EntrySize(items[k]) <= |body|
      && body[at..at + EntrySize(items[k])] == Entry(items[k], EntryAt(title, items, k), IconAt(title, items, k))
  {
    hide Word, EntrySize, Entry, IconAt;
    var table, es := Table(title, items, |items|), Entries(title, items, |items|);
    var front := table + Terminated(title);
    TableEntry(title, items, |items|, k);
    EntriesEntry(title, items, |items|, k);
    SliceRight(front, es, EntrySizes(items, k), EntrySizes(items, k) + EntrySize(items[k]));
    assert Body(title, items)[2 * k] == table[2 * k] && Body(title, items)[2 * k + 1] == table[2 * k + 1];
  }

  lemma {:induction false} Shifted(head: seq<Byte>, body: seq<Byte>, i: nat, j: nat)
    requires i <= j <= |body|
    ensures (head + body)[|head| + i..|head| + j] == body[i..j]
    ensures i + 2 <= |body| ==> ShortAt(head + body, |head| + i) == ShortAt(body, i)
  {
    hide Word;
    forall k | 0 <= k < |body| ensures (head + body)[|head| + k] == body[k] {}
  }

  /** Through the table, every program's entry is found where it was written. */
  lemma {:induction false} EntryFound(title: seq<Byte>, items: seq<Item>, w: Window, k: nat)
    requires k < |items|
    ensures var file := Contents(title, items, w); var at := EntryAt(title, items, k);
      && 34 + 2 * k + 2 <= |file| && ShortAt(file, 34 + 2 * k) == at % WORD
      && at + EntrySize(items[k]) <= |file| && file[at..at + EntrySize(items[k])] == Entry(items[k], at, IconAt(title, items, k))
  {
    hide Word, EntrySize, Entry, IconAt, Body;
    BodyParts(title, items, k);
    var at := EntryAt(title, items, k);
    Shifted(Header(title, items, w), Body(title, items), 2 * k, 2 * k + 2);
    Shifted(Header(title, items, w), Body(title, items), at - 34, at - 34 + EntrySize(items[k]));
  }

  /** Within an entry, the three string offsets lead to the strings. */
  lemma {:induction false} StringsFound(it: Item, at: nat, icon: nat)
    ensures var e := Entry(it, at, icon); var command := 24 + |it.name| + 1; var file := command + |it.command| + 1;
      && ShortAt(e, 18) == (at + 24) % WORD && e[24..command] == Terminated(it.name)
      && ShortAt(e, 20) == (at + command) % WORD && e[command..file] == Terminated(it.command)
      && ShortAt(e, 22) == (at + file) % WORD && e[file..] == Terminated(it.iconFile)
  {
    var vs := Fields(it, at, icon);
    ShortsAt(vs, 9);
    ShortsAt(vs, 10);
    ShortsAt(vs, 11);
    StringsBehind(Shorts(vs), Terminated(it.name), Terminated(it.command), Terminated(it.iconFile));
  }

  lemma {:induction false} StringsBehind(f: seq<Byte>, a: seq<Byte>, b: seq<Byte>, c: seq<Byte>)
    requires |f| == 24
    ensures var e := f + a + b + c;
      && ShortAt(e, 18) == ShortAt(f, 18) && ShortAt(e, 20) == ShortAt(f, 20) && ShortAt(e, 22) == ShortAt(f, 22)
      && e[24..24 + |a|] == a && e[24 + |a|..24 + |a| + |b|] == b && e[24 + |a| + |b|..] == c
  {
  }

  /** The offset the header stores is where the file ends, plus the icons that are not written, in 16 bits. */
  lemma {:induction false} ExtensionField(title: seq<Byte>, items: seq<Item>, w: Window)
    ensures var file := Contents(title, items, w);
      |file| >= 34 && ShortAt(file, 6) == (|file| + IconSizes(items, |items|)) % WORD
  {
    hide Word, Shorts, Body, IconSizes, EntrySizes;
    var vs := [0, IconAt(title, items, |items|), w.show, w.x, w.y, w.width, w.height, w.iconX, w.iconY,
               TitleAt(items), 0x20, 0x20, 0x108, 0, |items|];
    var file := Contents(title, items, w);
    ShortsAt(vs, 1);
    assert file[6] == Shorts(vs)[2] && file[7] == Shorts(vs)[3];
  }

  /** It is right, as far as 16 bits go, exactly when the sizes of the icons add up to a multiple of 65536. */
  lemma {:induction false} ExtensionOffset(title: seq<Byte>, items: seq<Item>, w: Window)
    ensures var file := Contents(title, items, w);
      |file| >= 34 && (ShortAt(file, 6) == |file| % WORD <==> IconSizes(items, |items|) % WORD == 0)
  {
    hide Contents, ShortAt, IconSizes;
    ExtensionField(title, items, w);
    SameLow(|Contents(title, items, w)|, IconSizes(items, |items|));
  }

  lemma {:induction false} SameLow(x: nat, y: nat)
    ensures (x + y) % WORD == x % WORD <==> y % WORD == 0
  {
    var a, b := x % WORD, y % WORD;
    assert (x + y) % WORD == (a + b) % WORD;
    assert (a + b) % WORD == if a + b < WORD then a + b else a + b - WORD;
  }

  /** One program with empty strings: with a small icon the stored offset is wrong, with one of 65536 bytes it is right. */
  lemma {:induction false} OffsetExample(w: Window)
    ensures var small, large := Item(0, 0, 0, [], [], [], 0, 0), Item(0, 0, 0, [], [], [], 0, 65524);
      && |Contents([], [small], w)| == 64 && ShortAt(Contents([], [small], w), 6) == 76
      && |Contents([], [large], w)| == 64 && ShortAt(Contents([], [large], w), 6) == 64
  {
    hide Contents, ShortAt, Word;
    var small, large := Item(0, 0, 0, [], [], [], 0, 0), Item(0, 0, 0, [], [], [], 0, 65524);
    OneItem(small, w);
    OneItem(large, w);
  }

  lemma {:induction false} OneItem(it: Item, w: Window)
    requires it.name == [] && it.command == [] && it.iconFile == []
    ensures var file := Contents([], [it], w); |file| == 64 && ShortAt(file, 6) == (64 + IconSize(it)) % WORD
  {
    hide ShortAt;
    ExtensionField([], [it], w);
    assert EntrySizes([it], 1) == EntrySizes([it], 0) + EntrySize(it) && IconSizes([it], 1) == IconSizes([it], 0) + IconSize(it);
  }

  // ----------------------------------------------------------------------- the writer

  /** The table loop: one offset per program. */
  method WriteTable(out: GroupWriter, title: seq<Byte>, items: seq<Item>)
    requires out.Valid()
    modifies out
    ensures out.Valid() && out.written == old(out.written) + Table(title, items, |items|)
  {
    var at, k := EntriesAt(title, items), 0;
    assert out.written + [] == out.written;
    while k < |items|
      invariant 0 <= k <= |items| && at == EntryAt(title, items, k) && out.Valid()
      invariant out.written == old(out.written) + Table(title, items, k)
    {
      Associate(old(out.written), Table(title, items, k), Shorts([at]));
      out.Write(Shorts([at]));
      at := at + EntrySize(items[k]);
      k := k + 1;
    }
  }

  method WriteEntry(out: GroupWriter, it: Item, at: nat, icon: nat)
    requires out.Valid()
    modifies out
    ensures out.Valid() && out.written == old(out.written) + Entry(it, at, icon)
  {
    out.Write(Shorts(Fields(it, at, icon)));
    out.Write(Terminated(it.name));
    out.Write(Terminated(it.command));
    out.Write(Terminated(it.iconFile));
  }

  /** The entry loop. */
  method WriteEntries(out: GroupWriter, title: seq<Byte>, items: seq<Item>)
    requires out.Valid()
    modifies out
    ensures out.Valid() && out.written == old(out.written) + Entries(title, items, |items|)
  {
    hide Entry;
    var at, icon, k := EntriesAt(title, items), IconAt(title, items, 0), 0;
    assert out.written + [] == out.written;
    while k < |items|
      invariant 0 <= k <= |items| && at == EntryAt(title, items, k) && icon == IconAt(title, items, k) && out.Valid()
      invariant out.written == old(out.written) + Entries(title, items, k)
    {
      Associate(old(out.written), Entries(title, items, k), Entry(items[k], at, icon));
      WriteEntry(out, items[k], at, icon);
      at := at + EntrySize(items[k]);
      icon := icon + IconSize(items[k]);
      k := k + 1;
    }
  }

  /** GRPFILE_DoWriteGroupFile up to the extension */
  method WriteGroup(out: GroupWriter, title: seq<Byte>, items: seq<Item>, w: Window)
    requires out.Valid() && out.written == []
    modifies out
    ensures out.Valid() && out.written == Contents(title, items, w)
  {
    var head := Header(title, items, w);
    out.Write(head);
    assert out.written == head;
    WriteBody(out, title, items);
  }

  method WriteBody(out: GroupWriter, title: seq<Byte>, items: seq<Item>)
    requires out.Valid()
    modifies out
    ensures out.Valid() && out.written == old(out.written) + Body(title, items)
  {
    ghost var table, es := Table(title, items, |items|), Entries(title, items, |items|);
    WriteTable(out, title, items);
    out.Write(Terminated(title));
    WriteEntries(out, title, items);
    Associate(old(out.written), table, Terminated(title));
    Associate(old(out.written), table + Terminated(title), es);
  }
}
