/**
 What registry files that delete do to the registry: a key with everything below it, one
 value, the default value; and the deletions at which the editor gives up.
 */
module RegDeletes {
  import opened Basics
  import opened WideText
  import opened StringEscape
  import opened Registry
  import opened RegImport
  import opened LineReader
  import opened RegExport
  import opened RegChunks
  import opened RegRoundTrip
  import opened RegEdits

  /** Importing a file, read in any pieces, turns one registry into another. */
  ghost predicate Imported(env: Env, chunks: seq<Text>, erange: bool, store: Store, s: Store) {
    && ValidChunks(chunks)
    && var r := Import(env, Lines(Reader(0, None, chunks)), erange); r.Returned? && r.ok && s == Apply(store, r.calls)
  }

  const NO_GAPS := Gaps([], [], [], [])

  lemma {:induction false} FileOfOne(head: Text, l: Text)
    ensures Unlines([head] + [l]) == head + CRLF + l + CRLF
  {
    UnlinesConcat([head], [l]);
    UnlinesOne(head);
    UnlinesOne(l);
  }

  lemma {:induction false} FileOfTwo(head: Text, a: Text, b: Text)
    ensures Unlines([head] + ([a] + [b])) == head + CRLF + a + CRLF + b + CRLF
  {
    UnlinesConcat([a], [b]);
    UnlinesConcat([head], [a] + [b]);
    UnlinesOne(head);
    UnlinesOne(a);
    UnlinesOne(b);
  }

  // ---------------------------------------------------------------------- a key

  /** Exactly the keys whose folded path does not start with these names are left, as they were. */
  ghost predicate KeyGone(store: Store, h: nat, names: seq<Text>, s: Store) {
    && (forall id :: id in s <==> id in store && !(id.hive == h && FoldNames(names) <= id.names))
    && (forall id :: id in s ==> s[id] == store[id])
  }

  /** A file with the one line [-class\name\...\name] deletes that key and everything below it, and nothing else. */
  lemma {:induction false} DeleteKeyFile(env: Env, head: Text, cls: Text, h: nat, names: seq<Text>, erange: bool, chunks: seq<Text>, store: Store)
      returns (s: Store)
    requires HeaderLine(head) && ClassName(cls, h) && PlainNames(names) && names != [] && ValidChunks(chunks)
    requires Concat(chunks) == head + CRLF + ([LBRACKET, MINUS] + Spelled(cls, names) + [RBRACKET]) + CRLF
    ensures Imported(env, chunks, erange, store, s) && KeyGone(store, h, names, s)
  {
    hide Spelled, Unlines, Import, Apply, HeaderLine;
    var e := Remove(cls, h, names, []);
    var l := [LBRACKET, MINUS] + Spelled(cls, names) + [RBRACKET];
    assert EditLines(e) == [l] by { assert l + [] == l; }
    OneEdit(e);
    FileOfOne(head, l);
    ImportEdits(env, head, [e], erange, chunks, store);
    s := Removed(store, h, names);
    assert s == AllDone(Edited(store, None), [e]).store;
  }

  lemma {:induction false} OneEdit(e: Edit)
    requires e.Put? ==> Exportable(e.value)
    ensures AllLines([e]) == EditLines(e) && forall s :: AllDone(s, [e]) == Done(s, e)
  {
    hide EditLines, Done;
    var one := [e];
    assert one[1..] == [];
    assert EditLines(e) + [] == EditLines(e);
    forall s ensures AllDone(s, [e]) == Done(s, e) { assert AllDone(s, one) == AllDone(Done(s, one[0]), one[1..]); }
  }

  lemma {:induction false} TwoEdits(a: Edit, b: Edit)
    requires (a.Put? ==> Exportable(a.value)) && (b.Put? ==> Exportable(b.value))
    ensures AllLines([a, b]) == EditLines(a) + EditLines(b) && forall s :: AllDone(s, [a, b]) == Done(Done(s, a), b)
  {
    hide EditLines, Done;
    var two := [a, b];
    assert two[1..] == [b];
    OneEdit(b);
    forall s ensures AllDone(s, two) == Done(Done(s, a), b) { assert AllDone(s, two) == AllDone(Done(s, two[0]), two[1..]); }
  }

  // ------------------------------------------------------------------------ a value

  /** The key is there, without the value of that name in any case; nothing else has changed. */
  ghost predicate ValueGone(store: Store, h: nat, names: seq<Text>, name: Text, s: Store) {
    var k := KeyPath(h, FoldNames(names));
    && (forall id :: id in s <==> id in store || (id.hive == h && id.names <= k.names))
    && (forall id :: id in store && id != k ==> s[id] == store[id])
    && (forall id :: id in s && id !in store ==> s[id] == Node(KeyPath(h, First(names, |id.names|)), map[]))
    && (k in store ==>
          && s[k].key == store[k].key
          && (forall n :: n in s[k].values <==> n in store[k].values && n != FoldText(name))
          && (forall n :: n in s[k].values ==> s[k].values[n] == store[k].values[n]))
  }

  lemma {:induction false} OnTheLine(h: nat, names: seq<Text>, id: KeyPath)
    ensures id in Lineage(h, names) <==> id.hive == h && id.names <= FoldNames(names)
  {
    var folded := FoldNames(names);
    if id.hive == h && id.names <= folded { assert id == KeyPath(h, folded[..|id.names|]); }
    if id in Lineage(h, names) {
      var i :| 0 <= i <= |names| && id == KeyPath(h, folded[..i]);
    }
  }

  lemma {:induction false} EraseIs(store: Store, h: nat, names: seq<Text>, name: Text, cls: Text)
    ensures ValueGone(store, h, names, name,
      Done(Done(Edited(store, None), Open(cls, h, names, [])), Erase(name, NO_GAPS)).store)
  {
    hide FoldNames, FoldText, Opened, ValueGone;
    var s1, k := Opened(store, h, names), KeyPath(h, FoldNames(names));
    OpenedMeans(store, h, names);
    assert Id(KeyPath(h, names)) == k && k in s1;
    FilteredGone(store, h, names, name, s1);
  }

  lemma {:induction false} FilteredGone(store: Store, h: nat, names: seq<Text>, name: Text, s1: Store)
    requires WithKey(store, h, names, s1) && KeyPath(h, FoldNames(names)) in s1
    ensures var k := KeyPath(h, FoldNames(names));
      ValueGone(store, h, names, name, s1[k := s1[k].(values := map n | n in s1[k].values && n != FoldText(name) :: s1[k].values[n])])
  {
    hide FoldNames, FoldText, First;
    var k := KeyPath(h, FoldNames(names));
    var left := map n | n in s1[k].values && n != FoldText(name) :: s1[k].values[n];
    NothingFiltered(s1[k], left);
    FilteredOthers(store, h, names, s1, s1[k].(values := left));
  }

  lemma {:induction false} NothingFiltered(node: Node, left: map<Text, Value>)
    requires left.Keys <= node.values.Keys
    ensures node.values == map[] ==> node.(values := left) == node
  {
  }

  lemma {:induction false} FilteredOthers(store: Store, h: nat, names: seq<Text>, s1: Store, node: Node)
    requires WithKey(store, h, names, s1) && var k := KeyPath(h, FoldNames(names)); k in s1 && (k !in store ==> node == s1[k])
    ensures var k := KeyPath(h, FoldNames(names)); var s2 := s1[k := node];
      && (forall id :: id in s2 <==> id in store || (id.hive == h && id.names <= k.names))
      && (forall id :: id in store && id != k ==> s2[id] == store[id])
      && (forall id :: id in s2 && id !in store ==> s2[id] == Node(KeyPath(h, First(names, |id.names|)), map[]))
  {
    hide FoldNames, First;
  }

  /** The key and its ancestors are there, the missing ones new and empty; the rest is as it was. */
  ghost predicate WithKey(store: Store, h: nat, names: seq<Text>, s: Store) {
    && (forall id :: id in s <==> id in store || (id.hive == h && id.names <= FoldNames(names)))
    && (forall id :: id in store ==> s[id] == store[id])
    && (forall id :: id in s && id !in store ==> s[id] == Node(KeyPath(h, First(names, |id.names|)), map[]))
  }

  /** What opening a key makes of the registry, key by key. */
  lemma {:induction false} OpenedMeans(store: Store, h: nat, names: seq<Text>)
    ensures WithKey(store, h, names, Opened(store, h, names))
  {
    hide Lineage, FoldNames, First;
    forall id ensures id in Lineage(h, names) <==> id.hive == h && id.names <= FoldNames(names) { OnTheLine(h, names, id); }
  }

  lemma {:induction false} DeleteValueText(name: Text)
    ensures ValueText(name, [MINUS], NO_GAPS) == NameText(name) + [EQUALS, MINUS]
  {
  }

  /** A key line and then "name"=- or @=- delete that value of the key and nothing else. */
  lemma {:induction false} DeleteValueFile(env: Env, head: Text, cls: Text, h: nat, names: seq<Text>, name: Text, erange: bool, chunks: seq<Text>, store: Store)
      returns (s: Store)
    requires HeaderLine(head) && ClassName(cls, h) && PlainNames(names) && NulFree(name) && ValidChunks(chunks)
    requires Concat(chunks) ==
      head + CRLF + ([LBRACKET] + Spelled(cls, names) + [RBRACKET]) + CRLF + (NameText(name) + [EQUALS, MINUS]) + CRLF
    ensures Imported(env, chunks, erange, store, s) && ValueGone(store, h, names, name, s)
  {
    hide Spelled, Unlines, Import, Apply, HeaderLine, ValueGone, NameText, ValueText, Done;
    var a, b := Open(cls, h, names, []), Erase(name, NO_GAPS);
    var first, second := [LBRACKET] + Spelled(cls, names) + [RBRACKET], NameText(name) + [EQUALS, MINUS];
    DeleteValueText(name);
    assert EditLines(a) == [first] by { assert first + [] == first; }
    assert EditLines(b) == [second];
    TwoEdits(a, b);
    FileOfTwo(head, first, second);
    ImportEdits(env, head, [a, b], erange, chunks, store);
    EraseIs(store, h, names, name, cls);
    s := Done(Done(Edited(store, None), a), b).store;
    assert s == AllDone(Edited(store, None), [a, b]).store;
  }

  // ------------------------------------------------------------- giving up

  /** What follows the minus sign is a class name alone, or starts like one and is none. */
  ghost predicate NothingToDelete(path: Text) {
    && path != [] && (path[0] == UPPER_H || path[0] == LOWER_H)
    && (NoClass(path) || exists h: nat, cls: Text :: ClassName(cls, h) && (path == cls || path == cls + [BACKSLASH]))
  }

  lemma {:induction false} NothingNamed(path: Text)
    requires NothingToDelete(path)
    ensures var (hive, rest) := ParseKeyName(path); hive.None? || rest.None? || rest.value == []
  {
    hide FindClass, NoClass, ClassName;
    if NoClass(path) {
      NoClassNamed(path);
    } else {
      var h: nat, cls: Text :| ClassName(cls, h) && (path == cls || path == cls + [BACKSLASH]);
      ClassPlain(cls, h);
      FirstBackslashAt(path, |cls|);
    }
  }

  /** Such a line ends the whole import, after what the lines before it have done. */
  lemma {:induction false} DeleteGivesUp(env: Env, head: Text, es: seq<Edit>, path: Text, tail: Text, more: seq<Text>, erange: bool, store: Store)
    requires HeaderLine(head) && AllProper(es, erange) && NothingToDelete(path) && RBRACKET !in tail
    ensures var line := [LBRACKET, MINUS] + path + [RBRACKET] + tail;
      var r := Import(env, [head] + (AllLines(es) + ([line] + more)), erange);
      r.Exited? && Apply(store, r.calls) == AllDone(Edited(store, None), es).store
  {
    hide Run, Apply, AllLines, AllDone, ParseKeyName, NothingToDelete, HeaderLine;
    var line := [LBRACKET, MINUS] + path + [RBRACKET] + tail;
    var p := RunHeader(env, head, AllLines(es) + ([line] + more), erange);
    var q := RunEdits(env, p, es, [line] + more, store);
    var end := RunGivesUp(env, q, path, tail, more, store);
    ApplyNone(store);
  }

  lemma {:induction false} RunGivesUp(env: Env, p: Parser, path: Text, tail: Text, more: seq<Text>, store: Store) returns (q: Parser)
    requires Ready(p) && NothingToDelete(path) && RBRACKET !in tail
    requires p.lines == [[LBRACKET, MINUS] + path + [RBRACKET] + tail] + more
    ensures Run(env, p, []) == q && q.exited && Apply(store, q.calls) == Apply(store, p.calls)
  {
    hide Run, Apply, ParseKeyName, NoClass;
    var inner := [MINUS] + path;
    assert [LBRACKET, MINUS] + path + [RBRACKET] + tail == [LBRACKET] + inner + [RBRACKET] + tail;
    RunBrackets(env, p, inner, tail, more);
    assert inner[1..] == path;
    var at := p.(lines := more, state := DeleteKey);
    NothingNamed(path);
    CloseChangesNothing(store, at);
    q := CloseCurrent(at).(exited := true);
    RunStep(env, at, path);
  }
}
