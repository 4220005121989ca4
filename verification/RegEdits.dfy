/**
 Registry files as they are written by hand: lines that open a key, delete a key, delete a
 value, set a value, or do nothing; and what a whole file of them does to the registry.
 */
module RegEdits {
  import opened Basics
  import opened WideText
  import opened StringEscape
  import opened HexCodec
  import opened Registry
  import opened RegImport
  import opened LineReader
  import opened RegExport
  import opened RegChunks
  import opened RegRoundTrip

  // -------------------------------------------------------------------- key names

  const HIVES: nat := 6

  function HiveName(h: nat): Text
    requires h < HIVES
  {
    match h
    case 0 => Wide("HKEY_LOCAL_MACHINE")
    case 1 => Wide("HKEY_USERS")
    case 2 => Wide("HKEY_CLASSES_ROOT")
    case 3 => Wide("HKEY_CURRENT_CONFIG")
    case 4 => Wide("HKEY_CURRENT_USER")
    case 5 => Wide("HKEY_DYN_DATA")
  }

  /** The name of a class, in any case. */
  predicate ClassName(cls: Text, h: nat) {
    h < HIVES && SameLetters(cls, HiveName(h))
  }

  /** A class name and the names below it, each after a backslash. */
  function Spelled(cls: Text, names: seq<Text>): Text {
    if names == [] then cls else Spelled(cls, names[..|names| - 1]) + [BACKSLASH] + names[|names| - 1]
  }

  predicate PlainNames(names: seq<Text>) {
    forall n :: n in names ==> PlainName(n)
  }

  lemma {:induction false} Capitals(s: string)
    requires forall i :: 0 <= i < |s| ==> 'A' <= s[i] <= 'Z' || s[i] == '_'
    ensures FoldText(Wide(s)) == Wide(s) && forall i :: 0 <= i < |s| ==> Wide(s)[i] != BACKSLASH && Wide(s)[i] >= 0x41
  {
    var t := Wide(s);
    assert forall i :: 0 <= i < |s| ==> t[i] == s[i] as int;
  }

  lemma {:induction false} HiveNameIs(h: nat)
    requires h < HIVES
    ensures HiveName(h) == CLASS_NAMES[h] && FoldText(HiveName(h)) == HiveName(h)
    ensures HiveName(h) != [] && forall i :: 0 <= i < |HiveName(h)| ==> HiveName(h)[i] != BACKSLASH && HiveName(h)[i] >= 0x41
  {
    hide FoldText;
    match h
    case 0 => Capitals("HKEY_LOCAL_MACHINE");
    case 1 => Capitals("HKEY_USERS");
    case 2 => Capitals("HKEY_CLASSES_ROOT");
    case 3 => Capitals("HKEY_CURRENT_CONFIG");
    case 4 => Capitals("HKEY_CURRENT_USER");
    case 5 => Capitals("HKEY_DYN_DATA");
  }

  lemma {:induction false} HivesDiffer(g: nat, h: nat)
    requires g < h < HIVES
    ensures CLASS_NAMES[g] != CLASS_NAMES[h]
  {
    if g == 2 && h == 4 {
      assert CLASS_NAMES[g][6] == 0x4C && CLASS_NAMES[h][6] == 0x55;
    } else {
      assert |CLASS_NAMES[g]| != |CLASS_NAMES[h]|;
    }
  }

  lemma {:induction false} ClassFound(cls: Text, h: nat, i: nat)
    requires ClassName(cls, h) && i <= h
    ensures FindClass(cls, i) == Some(h)
    decreases h - i
  {
    HiveNameIs(h);
    FoldIs(cls, HiveName(h));
    assert cls[..|cls|] == cls;
    if i < h {
      ClassFound(cls, h, i + 1);
      HivesDiffer(i, h);
      ClassPlain(cls, h);
      assert !ClassMatches(cls, i);
    }
  }

  lemma {:induction false} ClassPlain(cls: Text, h: nat)
    requires ClassName(cls, h)
    ensures cls != [] && OneLine(cls) && NulFree(cls) && BACKSLASH !in cls
  {
    HiveNameIs(h);
    forall i | 0 <= i < |cls| ensures cls[i] > 0x20 && cls[i] != BACKSLASH { assert SameLetter(cls[i], HiveName(h)[i]); }
  }

  /** A class name in any case and plain names after backslashes name the key of those names. */
  lemma {:induction false} KeySpelled(cls: Text, h: nat, names: seq<Text>)
    requires ClassName(cls, h) && PlainNames(names)
    ensures ProperPath(Spelled(cls, names), KeyPath(h, names))
    decreases |names|
  {
    if names == [] {
      ClassFound(cls, h, 0);
      ClassPlain(cls, h);
      assert cls[|cls| - 1] in cls;
      FirstBackslashAt(cls, |cls|);
    } else {
      var init, last := names[..|names| - 1], names[|names| - 1];
      assert names == init + [last] && last in names;
      KeySpelled(cls, h, init);
      ChildNamed(Spelled(cls, init), KeyPath(h, init), last);
    }
  }

  // ----------------------------------------------------------------------- the lines

  /** The blanks around an equals sign and behind the data of a value, and a comment. */
  datatype Gaps = Gaps(before: Text, after: Text, behind: Text, comment: Text) {
    predicate Valid() {
      Blanks(before) && Blanks(after) && Blanks(behind) && Comment(comment)
    }
  }

  datatype Edit =
    | Open(cls: Text, hive: nat, names: seq<Text>, tail: Text)
    | Remove(cls: Text, hive: nat, names: seq<Text>, tail: Text)
    | Stray(path: Text, tail: Text)
    | Erase(name: Text, gaps: Gaps)
    | Phrase(name: Text, text: Text, gaps: Gaps)
    | Number(name: Text, n: nat, digits: Text, gaps: Gaps)
    | Put(value: Value)
    | Idle(line: Text)
    | Unclosed(text: Text)
    | Unquoted(text: Text)
    | NoData(name: Text, blanks: Text, rest: Text)
    | NoType(name: Text, gaps: Gaps, data: Text)

  predicate Plain(t: Text) {
    OneLine(t) && NulFree(t)
  }

  predicate Comment(t: Text) {
    Plain(t) && (t == [] || t[0] == SEMICOLON)
  }

  /** A line that opens nothing: it is blank, or starts with something other than a bracket, an at sign or a quote. */
  predicate Neutral(line: Text) {
    line == [] || (line[0] != LBRACKET && line[0] != AT && line[0] != QUOTE && !IsBlank(line[0]))
  }

  /** No class name, in any case, stands at the start of the path as a whole name. */
  predicate NoClass(path: Text) {
    forall h: nat :: h < HIVES ==> !StartsWithClass(path, h)
  }

  predicate StartsWithClass(path: Text, h: nat)
    requires h < HIVES
  {
    var n := |HiveName(h)|;
    n <= |path| && SameLetters(path[..n], HiveName(h)) && (|path| == n || path[n] == BACKSLASH)
  }

  /** Nothing that data can start with. */
  predicate Untyped(data: Text) {
    && (data != [] ==> !IsBlank(data[0]) && data[0] != MINUS && data[0] != QUOTE)
    && !(HEX_TAG <= data) && !(DWORD_TAG <= data) && !(HEX_TYPE_TAG <= data)
  }

  predicate Proper(e: Edit, erange: bool) {
    match e
    case Open(cls, h, names, tail) => ClassName(cls, h) && PlainNames(names) && Plain(tail) && RBRACKET !in tail
    case Remove(cls, h, names, tail) => ClassName(cls, h) && PlainNames(names) && names != [] && Plain(tail) && RBRACKET !in tail
    case Stray(path, tail) =>
      && Plain(path) && Plain(tail) && RBRACKET !in tail && path != [] && !IsBlank(path[0])
      && if path[0] == MINUS then |path| == 1 || (path[1] != UPPER_H && path[1] != LOWER_H) else NoClass(path)
    case Erase(name, gaps) => NulFree(name) && gaps.Valid()
    case Phrase(name, text, gaps) => NulFree(name) && NulFree(text) && gaps.Valid()
    case Number(name, n, digits, gaps) =>
      NulFree(name) && gaps.Valid() && n < UINT32 && 1 <= |digits| <= 8 && AllHex(digits) && HexNumber(digits) == n
    case Unclosed(text) => Plain(text) && (RBRACKET !in text || (text != [] && IsBlank(text[0])))
    case Unquoted(text) => Plain(text) && QUOTE !in text
    case NoData(name, blanks, rest) =>
      NulFree(name) && Blanks(blanks) && Plain(rest) && (rest == [] || (rest[0] != EQUALS && !IsBlank(rest[0])))
    case NoType(name, gaps, data) => NulFree(name) && gaps.Valid() && Plain(data) && Untyped(data)
    case Put(v) => Exportable(v) && TypeReadable(v.typ, erange) && WellTyped(v)
    case Idle(line) => Neutral(line) && Plain(line)
  }

  function NameText(name: Text): Text {
    if name == [] then [AT] else [QUOTE] + Escape(name) + [QUOTE]
  }

  function ValueText(name: Text, data: Text, gaps: Gaps): Text {
    NameText(name) + (gaps.before + [EQUALS] + gaps.after + (data + gaps.behind + gaps.comment))
  }

  /** The lines of the file that make one edit. */
  function EditLines(e: Edit): seq<Text>
    requires e.Put? ==> Exportable(e.value)
  {
    match e
    case Open(cls, _, names, tail) => [[LBRACKET] + Spelled(cls, names) + [RBRACKET] + tail]
    case Remove(cls, _, names, tail) => [[LBRACKET, MINUS] + Spelled(cls, names) + [RBRACKET] + tail]
    case Stray(path, tail) => [[LBRACKET] + path + [RBRACKET] + tail]
    case Erase(name, gaps) => [ValueText(name, [MINUS], gaps)]
    case Phrase(name, text, gaps) => [ValueText(name, [QUOTE] + Escape(text) + [QUOTE], gaps)]
    case Number(name, n, digits, gaps) => [ValueText(name, DWORD_TAG + digits, gaps)]
    case Unclosed(text) => [[LBRACKET] + text]
    case Unquoted(text) => [[QUOTE] + text]
    case NoData(name, blanks, rest) => [NameText(name) + blanks + rest]
    case NoType(name, gaps, data) => [NameText(name) + gaps.before + [EQUALS] + gaps.after + data]
    case Put(v) => ValueLines(v)
    case Idle(line) => [line]
  }

  // ------------------------------------------------------------- what they are to do

  /** The registry and the key that is open. */
  datatype Edited = Edited(store: Store, current: Option<KeyPath>)

  /** The folded path lies at or below these folded names of a class. */
  predicate Under(id: KeyPath, h: nat, folded: seq<Text>) {
    id.hive == h && folded <= id.names
  }

  /** The key and its ancestors, by folded path. */
  function Lineage(h: nat, names: seq<Text>): set<KeyPath> {
    set i | 0 <= i <= |names| :: KeyPath(h, FoldNames(names)[..i])
  }

  function First(names: seq<Text>, n: nat): seq<Text> {
    if n <= |names| then names[..n] else names
  }

  /** The key is there, with its ancestors; the missing ones are new and empty. */
  function Opened(store: Store, h: nat, names: seq<Text>): Store {
    map id | id in store.Keys + Lineage(h, names) ::
      if id in store then store[id] else Node(KeyPath(h, First(names, |id.names|)), map[])
  }

  /** Everything at or below the key is gone, everything else is as it was. */
  function Removed(store: Store, h: nat, names: seq<Text>): Store {
    map id | id in store && !Under(id, h, FoldNames(names)) :: store[id]
  }

  predicate KeyOpen(s: Edited) {
    s.current.Some? && Id(s.current.value) in s.store
  }

  function Values(s: Edited): map<Text, Value>
    requires KeyOpen(s)
  {
    s.store[Id(s.current.value)].values
  }

  /** The open key has new values. */
  function Revalued(s: Edited, values: map<Text, Value>): Edited
    requires KeyOpen(s)
  {
    var id := Id(s.current.value);
    s.(store := s.store[id := s.store[id].(values := values)])
  }

  function WithValue(s: Edited, v: Value): Edited {
    if KeyOpen(s) then Revalued(s, Values(s)[FoldText(v.name) := v]) else s
  }

  function Done(s: Edited, e: Edit): Edited {
    match e
    case Open(_, h, names, _) => Edited(Opened(s.store, h, names), Some(KeyPath(h, names)))
    case Remove(_, h, names, _) => Edited(Removed(s.store, h, names), None)
    case Stray(_, _) => s.(current := None)
    case Erase(name, _) =>
      if KeyOpen(s) then Revalued(s, map n | n in Values(s) && n != FoldText(name) :: Values(s)[n]) else s
    case Phrase(name, text, _) => WithValue(s, Value(name, REG_SZ, ToBytes(text + [NUL])))
    case Number(name, n, _, _) => WithValue(s, Value(name, REG_DWORD, if n < UINT32 then Little(n) else []))
    case Put(v) => WithValue(s, v)
    case _ => s
  }

  function AllDone(s: Edited, es: seq<Edit>): Edited
    decreases |es|
  {
    if es == [] then s else AllDone(Done(s, es[0]), es[1..])
  }

  // ----------------------------------------------------------- what the calls do

  lemma {:induction false} FoldPrefix(names: seq<Text>, i: nat)
    requires i <= |names|
    ensures FoldNames(names)[..i] == FoldNames(names[..i])
  {
  }

  /** A key and its ancestors are the ancestors of its parent and the key itself. */
  lemma {:induction false} LineParent(h: nat, names: seq<Text>)
    requires names != []
    ensures Lineage(h, names) == Lineage(h, names[..|names| - 1]) + {KeyPath(h, FoldNames(names))}
  {
    var n := |names| - 1;
    var folded := FoldNames(names);
    FoldPrefix(names, n);
    assert folded[..n + 1] == folded;
    forall i | 0 <= i <= n ensures FoldNames(names[..n])[..i] == folded[..i] {
    }
    forall id | id in Lineage(h, names[..n]) ensures id in Lineage(h, names) {
      var i :| 0 <= i <= n && id == KeyPath(h, FoldNames(names[..n])[..i]);
      assert id == KeyPath(h, folded[..i]);
    }
    forall id | id in Lineage(h, names) ensures id in Lineage(h, names[..n]) + {KeyPath(h, folded)} {
      var i :| 0 <= i <= |names| && id == KeyPath(h, folded[..i]);
      if i <= n { assert id == KeyPath(h, FoldNames(names[..n])[..i]); }
    }
  }

  lemma {:induction false} FirstOfInit(names: seq<Text>, n: nat)
    requires n < |names|
    ensures First(names[..|names| - 1], n) == First(names, n) && First(names, |names|) == names
  {
  }

  lemma {:induction false} OpenedKeys(store: Store, h: nat, names: seq<Text>)
    requires names != []
    ensures Opened(store, h, names).Keys == Opened(store, h, names[..|names| - 1]).Keys + {KeyPath(h, FoldNames(names))}
  {
    hide Lineage;
    LineParent(h, names);
  }

  lemma {:induction false} OpenedAt(store: Store, h: nat, names: seq<Text>, x: KeyPath)
    requires names != [] && x in Opened(store, h, names[..|names| - 1])
    ensures x in Opened(store, h, names) && Opened(store, h, names)[x] == Opened(store, h, names[..|names| - 1])[x]
  {
    hide Lineage, First;
    LineParent(h, names);
    LineLengths(h, names[..|names| - 1]);
    if x !in store { FirstOfInit(names, |x.names|); }
  }

  /** Opening a key is opening its parent and making the key if it is not there. */
  lemma {:induction false} OpenedStep(store: Store, h: nat, names: seq<Text>)
    requires names != []
    ensures var above, id := Opened(store, h, names[..|names| - 1]), KeyPath(h, FoldNames(names));
      Opened(store, h, names) == if id in above then above else above[id := Node(KeyPath(h, names), map[])]
  {
    hide FoldNames;
    var above, id := Opened(store, h, names[..|names| - 1]), KeyPath(h, FoldNames(names));
    OpenedKeys(store, h, names);
    FirstOfInit(names, 0);
    if id !in above { assert id !in store; }
    forall x | x in above ensures x in Opened(store, h, names) && Opened(store, h, names)[x] == above[x] { OpenedAt(store, h, names, x); }
  }

  /** The registry call that opens a key makes that key and its missing ancestors. */
  lemma {:induction false} CreateOpens(store: Store, h: nat, names: seq<Text>)
    ensures Create(store, KeyPath(h, names)) == Opened(store, h, names)
    decreases |names|
  {
    if names == [] {
      var id := KeyPath(h, FoldNames(names));
      assert FoldNames(names)[..0] == FoldNames(names);
      assert Lineage(h, names) == {id};
    } else {
      hide Opened;
      CreateOpens(store, h, names[..|names| - 1]);
      OpenedStep(store, h, names);
    }
  }

  lemma {:induction false} LineLengths(h: nat, names: seq<Text>)
    ensures forall id :: id in Lineage(h, names) ==> |id.names| <= |names|
  {
  }

  // ------------------------------------------------------- running the lines of an edit

  /** Calls that bring the registry and the open key from one state to the next. */
  ghost predicate Brings(p: Parser, q: Parser, store: Store, e: Edit) {
    Edited(Apply(store, q.calls), q.hkey) == Done(Edited(Apply(store, p.calls), p.hkey), e)
  }

  lemma {:induction false} ApplyMore(store: Store, calls: seq<Call>, c: Call)
    ensures Apply(store, calls + [c]) == Perform(Apply(store, calls), c)
  {
    ApplyConcat(store, calls, [c]);
    var s := Apply(store, calls);
    assert Apply(s, [c]) == Apply(Perform(s, c), [c][1..]);
  }

  lemma {:induction false} CloseChangesNothing(store: Store, p: Parser)
    ensures Apply(store, CloseCurrent(p).calls) == Apply(store, p.calls) && CloseCurrent(p).hkey == None
  {
    if p.hkey.Some? { ApplyMore(store, p.calls, CloseKey(p.hkey.value)); }
  }

  lemma {:induction false} BracketAt(inner: Text, tail: Text)
    requires RBRACKET !in tail
    ensures LastBracket(inner + [RBRACKET] + tail) == |inner|
  {
    var s := inner + [RBRACKET] + tail;
    var i := LastBracket(s);
    assert s[|inner|] == RBRACKET;
    assert forall j :: 0 <= j < |tail| ==> s[|inner| + 1 + j] == tail[j];
    assert !(|inner| < i < |s|);
  }

  /** A line in brackets, whatever follows the last one. */
  lemma {:induction false} RunBrackets(env: Env, p: Parser, inner: Text, tail: Text, more: seq<Text>)
    requires Ready(p) && p.lines == [[LBRACKET] + inner + [RBRACKET] + tail] + more
    requires inner != [] && !IsBlank(inner[0]) && RBRACKET !in tail
    ensures var o := KeyFound(p.(lines := more, state := KeyName), inner); o.1.Some? && Run(env, p, []) == Run(env, o.0, o.1.value)
  {
    hide KeyFound, LastBracket, Run;
    var line, rest := [LBRACKET] + inner + [RBRACKET] + tail, inner + [RBRACKET] + tail;
    var k := p.(lines := more, state := KeyName);
    assert line[1..] == rest && line[0] == LBRACKET;
    StepLine(env, p, [], line, more, k, rest);
    BracketAt(inner, tail);
    assert rest[0] == inner[0] && rest[..|inner|] == inner;
    KeyFoundGoesOn(k, inner);
    Take(env, k, rest, KeyFound(k, inner).0, KeyFound(k, inner).1.value);
  }

  lemma {:induction false} KeyFoundGoesOn(p: Parser, name: Text)
    ensures KeyFound(p, name).1.Some?
  {
  }

  lemma {:induction false} SpelledStarts(cls: Text, h: nat, names: seq<Text>)
    requires ClassName(cls, h)
    ensures var path := Spelled(cls, names); path != [] && (path[0] == UPPER_H || path[0] == LOWER_H)
    decreases |names|
  {
    if names == [] {
      HiveNameIs(h);
      assert HiveName(h)[0] == UPPER_H;
      assert SameLetter(cls[0], HiveName(h)[0]);
    } else {
      SpelledStarts(cls, h, names[..|names| - 1]);
    }
  }

  /** A key line opens the key it names. */
  lemma {:induction false} RunOpenLine(env: Env, p: Parser, path: Text, k: KeyPath, tail: Text, more: seq<Text>) returns (q: Parser)
    requires Ready(p) && p.lines == [[LBRACKET] + path + [RBRACKET] + tail] + more && RBRACKET !in tail
    requires KeyNamed(path) == Some(k) && path != [] && !IsBlank(path[0]) && path[0] != MINUS
    ensures Run(env, p, []) == Run(env, q, []) && Ready(q) && q.lines == more && q.erange == p.erange
    ensures q.hkey == Some(k) && q.calls == CloseCurrent(p).calls + [CreateKey(k)]
  {
    hide KeyNamed, Run;
    RunBrackets(env, p, path, tail, more);
    var at := p.(lines := more, state := KeyName);
    OpenNamedAs(at, path, k);
    q := OpenNamed(at, path).(state := LineStart);
    AnyPosition(env, q, path, []);
  }

  lemma {:induction false} OpenBrings(p: Parser, q: Parser, store: Store, e: Edit)
    requires e.Open? && var k := KeyPath(e.hive, e.names); q.hkey == Some(k) && q.calls == CloseCurrent(p).calls + [CreateKey(k)]
    ensures Brings(p, q, store, e)
  {
    hide Opened, Apply, Create, CloseCurrent;
    CloseChangesNothing(store, p);
    ApplyMore(store, CloseCurrent(p).calls, CreateKey(KeyPath(e.hive, e.names)));
    CreateOpens(Apply(store, p.calls), e.hive, e.names);
  }

  lemma {:induction false} RunOpen(env: Env, p: Parser, e: Edit, more: seq<Text>, store: Store) returns (q: Parser)
    requires Ready(p) && e.Open? && Proper(e, p.erange) && p.lines == EditLines(e) + more
    ensures Run(env, p, []) == Run(env, q, []) && Ready(q) && q.lines == more && q.erange == p.erange && Brings(p, q, store, e)
  {
    hide Spelled, KeyNamed, Run, Ready, Brings, ClassName;
    KeySpelled(e.cls, e.hive, e.names);
    SpelledStarts(e.cls, e.hive, e.names);
    q := RunOpenLine(env, p, Spelled(e.cls, e.names), KeyPath(e.hive, e.names), e.tail, more);
    OpenBrings(p, q, store, e);
  }

  lemma {:induction false} DeleteNamedAs(q: Parser, path: Text, k: KeyPath)
    requires KeyNamed(path) == Some(k) && k.names != []
    ensures DeleteNamed(q, path) == (q.(calls := q.calls + [DeleteTree(k)], state := LineStart), Some(path))
  {
  }

  /** From the text behind the minus sign to the deletion. */
  lemma {:induction false} RunDeleteKey(env: Env, p: Parser, path: Text, k: KeyPath) returns (q: Parser)
    requires p.state == DeleteKey && Modern(p.version) && p.data == Null && p.dataSize == 0 && !p.exited
    requires KeyNamed(path) == Some(k) && k.names != [] && path != [] && (path[0] == UPPER_H || path[0] == LOWER_H)
    ensures Run(env, p, path) == Run(env, q, []) && Ready(q) && q.lines == p.lines && q.erange == p.erange
    ensures q.hkey == None && q.calls == CloseCurrent(p).calls + [DeleteTree(k)]
  {
    hide KeyNamed, DeleteNamed, Run;
    var closed := CloseCurrent(p);
    DeleteNamedAs(closed, path, k);
    q := closed.(calls := closed.calls + [DeleteTree(k)], state := LineStart);
    Take(env, p, path, q, path);
    AnyPosition(env, q, path, []);
  }

  lemma {:induction false} RunRemoveLine(env: Env, p: Parser, path: Text, k: KeyPath, tail: Text, more: seq<Text>) returns (q: Parser)
    requires Ready(p) && p.lines == [[LBRACKET, MINUS] + path + [RBRACKET] + tail] + more && RBRACKET !in tail
    requires KeyNamed(path) == Some(k) && k.names != [] && path != [] && (path[0] == UPPER_H || path[0] == LOWER_H)
    ensures Run(env, p, []) == Run(env, q, []) && Ready(q) && q.lines == more && q.erange == p.erange
    ensures q.hkey == None && q.calls == CloseCurrent(p).calls + [DeleteTree(k)]
  {
    hide KeyNamed, Run;
    var inner := [MINUS] + path;
    assert [LBRACKET, MINUS] + path + [RBRACKET] + tail == [LBRACKET] + inner + [RBRACKET] + tail;
    RunBrackets(env, p, inner, tail, more);
    assert inner[1..] == path;
    q := RunDeleteKey(env, p.(lines := more, state := DeleteKey), path, k);
  }

  lemma {:induction false} RemoveBrings(p: Parser, q: Parser, store: Store, e: Edit)
    requires e.Remove? && q.hkey == None && q.calls == CloseCurrent(p).calls + [DeleteTree(KeyPath(e.hive, e.names))]
    ensures Brings(p, q, store, e)
  {
    hide Apply, CloseCurrent;
    CloseChangesNothing(store, p);
    ApplyMore(store, CloseCurrent(p).calls, DeleteTree(KeyPath(e.hive, e.names)));
  }

  lemma {:induction false} RunRemove(env: Env, p: Parser, e: Edit, more: seq<Text>, store: Store) returns (q: Parser)
    requires Ready(p) && e.Remove? && Proper(e, p.erange) && p.lines == EditLines(e) + more
    ensures Run(env, p, []) == Run(env, q, []) && Ready(q) && q.lines == more && q.erange == p.erange && Brings(p, q, store, e)
  {
    hide Spelled, KeyNamed, Run, Ready, Brings, ClassName;
    KeySpelled(e.cls, e.hive, e.names);
    SpelledStarts(e.cls, e.hive, e.names);
    q := RunRemoveLine(env, p, Spelled(e.cls, e.names), KeyPath(e.hive, e.names), e.tail, more);
    RemoveBrings(p, q, store, e);
  }

  // -------------------------------------------------------------- deleting a value

  /** Trimming takes trailing blanks only: what is left is followed by nothing but blanks. */
  lemma {:induction false} TrimmedPart(t: Text)
    ensures var r := TrimRight(t);
      r <= t && (forall i :: |r| <= i < |t| ==> IsBlank(t[i])) && (r == [] || !IsBlank(r[|r| - 1]))
  {
    if t != [] && IsBlank(t[|t| - 1]) {
      TrimmedPart(t[..|t| - 1]);
    }
  }

  /** What can follow the data of a value: nothing, or blanks and a comment. */
  predicate Ending(w: Text) {
    EndsHere(SkipBlanks(w)) && (w == [] || IsBlank(w[0]) || w[0] == SEMICOLON)
  }

  lemma {:induction false} EndingOf(behind: Text, c: Text)
    requires Blanks(behind) && (c == [] || c[0] == SEMICOLON)
    ensures Ending(behind + c)
  {
    SkipThem(behind, c);
  }

  /** Trimming leaves the data of a value whole, and of what follows it enough to end the line. */
  lemma {:induction false} TrimmedData(data: Text, behind: Text, comment: Text) returns (w: Text)
    requires data != [] && !IsBlank(data[|data| - 1]) && Blanks(behind) && (comment == [] || comment[0] == SEMICOLON)
    ensures TrimRight(data + behind + comment) == data + w && Ending(w)
  {
    hide TrimRight, SkipBlanks, Ending;
    var whole := data + behind + comment;
    var t := TrimRight(whole);
    TrimmedPart(whole);
    assert whole[|data| - 1] == data[|data| - 1] && |t| >= |data|;
    w := t[|data|..];
    var n := |w|;
    assert t == data + w by { assert t[..|data|] == whole[..|data|] == data; }
    assert w == whole[|data|..|data| + n];
    if n <= |behind| {
      assert w == behind[..n] + [];
      EndingOf(behind[..n], []);
    } else {
      assert w == behind + comment[..n - |behind|];
      EndingOf(behind, comment[..n - |behind|]);
    }
  }

  /** The name of a value, from the start of its line. */
  lemma {:induction false} RunNameText(env: Env, p: Parser, name: Text, rest: Text, more: seq<Text>)
    requires Ready(p) && NulFree(name) && p.lines == [NameText(name) + rest] + more
    ensures Run(env, p, []) == Run(env, AtData(p, name, more).(state := DataStart), rest)
  {
    hide Run, Escape, Ready;
    if name == [] { RunAt(env, p, rest, more); } else { RunQuotedName(env, p, name, rest, more); }
  }

  lemma {:induction false} RunAt(env: Env, p: Parser, rest: Text, more: seq<Text>)
    requires Ready(p) && p.lines == [[AT] + rest] + more
    ensures Run(env, p, []) == Run(env, p.(lines := more, valueName := None, state := DataStart), rest)
  {
    hide Run;
    var line, p1 := [AT] + rest, p.(lines := more, state := DefaultValueName);
    assert line[1..] == rest;
    StepLine(env, p, [], line, more, p1, line);
    Take(env, p1, line, p1.(valueName := None, state := DataStart), rest);
  }

  lemma {:induction false} RunQuotedName(env: Env, p: Parser, name: Text, rest: Text, more: seq<Text>)
    requires Ready(p) && NulFree(name) && p.lines == [[QUOTE] + Escape(name) + [QUOTE] + rest] + more
    ensures Run(env, p, []) == Run(env, p.(lines := more, valueName := Some(name), state := DataStart), rest)
  {
    hide Run, Escape;
    var line, p1 := [QUOTE] + Escape(name) + [QUOTE] + rest, p.(lines := more, state := QuotedValueName);
    assert line[0] == QUOTE && line[1..] == Escape(name) + [QUOTE] + rest;
    StepLine(env, p, [], line, more, p1, Escape(name) + [QUOTE] + rest);
    StepQuotedName(env, p1, name, rest);
  }

  /** Blanks, an equals sign and blanks before the data of a value. */
  lemma {:induction false} DataStartIs(p: Parser, before: Text, after: Text, data: Text)
    requires Blanks(before) && Blanks(after) && (data == [] || !IsBlank(data[0]))
    ensures var t := TrimRight(data); var next := if t != [] && t[0] == MINUS then DeletingValue else DataType;
      DataStartState(p, before + [EQUALS] + after + data) == (p.(state := next), Some(t))
  {
    hide TrimRight, SkipBlanks;
    var s := [EQUALS] + after + data;
    assert before + [EQUALS] + after + data == before + s && s[0] == EQUALS && s[1..] == after + data;
    SkipThem(before, s);
    SkipThem(after, data);
  }

  /** From the start of the line of a value to its data. */
  lemma {:induction false} RunToData(env: Env, p: Parser, name: Text, data: Text, gaps: Gaps, more: seq<Text>) returns (w: Text)
    requires Ready(p) && NulFree(name) && gaps.Valid() && p.lines == [ValueText(name, data, gaps)] + more
    requires data != [] && !IsBlank(data[0]) && !IsBlank(data[|data| - 1])
    ensures Ending(w)
    ensures Run(env, p, []) ==
      Run(env, AtData(p, name, more).(state := if data[0] == MINUS then DeletingValue else DataType), data + w)
  {
    hide Run, TrimRight, SkipBlanks, DataStartState, Ending, NameText;
    var all := data + gaps.behind + gaps.comment;
    var rest := gaps.before + [EQUALS] + gaps.after + all;
    RunNameText(env, p, name, rest, more);
    w := TrimmedData(data, gaps.behind, gaps.comment);
    var at := AtData(p, name, more).(state := DataStart);
    assert all[0] == data[0] && (data + w)[0] == data[0];
    DataStartIs(at, gaps.before, gaps.after, all);
    Take(env, at, rest, AtData(p, name, more).(state := if data[0] == MINUS then DeletingValue else DataType), data + w);
  }

  lemma {:induction false} RunErase(env: Env, p: Parser, e: Edit, more: seq<Text>) returns (q: Parser)
    requires Ready(p) && e.Erase? && Proper(e, p.erange) && p.lines == EditLines(e) + more
    ensures Run(env, p, []) == Run(env, q, []) && Ready(q) && q.lines == more && q.erange == p.erange
    ensures q.hkey == p.hkey && q.calls == p.calls + [DeleteValue(p.hkey, e.name)]
  {
    hide Run, SkipBlanks, ValueText;
    var w := RunToData(env, p, e.name, [MINUS], e.gaps, more);
    var at, t := AtData(p, e.name, more).(state := DeletingValue), [MINUS] + w;
    assert t[1..] == w;
    NamedBack(e.name);
    q := at.(calls := at.calls + [DeleteValue(at.hkey, e.name)], state := LineStart);
    Take(env, at, t, q, SkipBlanks(w));
    AnyPosition(env, q, SkipBlanks(w), []);
  }

  /** Quoted data with what may follow it. */
  lemma {:induction false} RunPhraseData(env: Env, p: Parser, text: Text, w: Text)
    requires p.state == DataType && NulFree(text) && Ending(w)
    ensures Run(env, p, [QUOTE] + Escape(text) + [QUOTE] + w) == Run(env, WithString(p, text), SkipBlanks(w))
  {
    hide Run, SkipBlanks, Escape, Unescape;
    var body := Escape(text) + [QUOTE] + w;
    assert [QUOTE] + Escape(text) + [QUOTE] + w == [QUOTE] + body;
    StepQuoteTag(env, p, body);
    UnescapeEscape(text, w);
    Take(env, p.(parseType := REG_SZ, dataType := REG_SZ, state := StringData), body, WithString(p, text), SkipBlanks(w));
  }

  lemma {:induction false} RunPhrase(env: Env, p: Parser, e: Edit, more: seq<Text>) returns (q: Parser)
    requires Ready(p) && e.Phrase? && Proper(e, p.erange) && p.lines == EditLines(e) + more
    ensures Run(env, p, []) == Run(env, q, []) && Ready(q) && q.lines == more && q.erange == p.erange && q.hkey == p.hkey
    ensures q.calls == p.calls + [SetValue(p.hkey, Value(e.name, REG_SZ, ToBytes(e.text + [NUL])))]
  {
    hide Run, SkipBlanks, Ending, ValueText, Escape, ToBytes;
    var data := [QUOTE] + Escape(e.text) + [QUOTE];
    var w := RunToData(env, p, e.name, data, e.gaps, more);
    var at := AtData(p, e.name, more);
    RunPhraseData(env, at, e.text, w);
    var ready := WithString(at, e.text);
    assert Payload(ready) == ToBytes(e.text + [NUL]);
    RunSet(env, ready, SkipBlanks(w));
    NamedBack(e.name);
    q := Step(env, ready, SkipBlanks(w)).0;
  }

  lemma {:induction false} ConvertEnding(digits: Text, w: Text)
    requires 1 <= |digits| <= 8 && AllHex(digits) && Ending(w)
    ensures ConvertDword(digits + w) == Some(HexNumber(digits))
  {
    hide HexNumber;
    var s := digits + w;
    assert s[0] == digits[0] && IsHex(digits[0]);
    HexRunOf(digits, w);
    assert s[..|digits|] == digits && s[|digits|..] == w;
  }

  lemma {:induction false} RunNumberData(env: Env, p: Parser, digits: Text, w: Text, n: nat) returns (q: Parser)
    requires p.state == DataType && 1 <= |digits| <= 8 && AllHex(digits) && Ending(w) && n == HexNumber(digits) && n < UINT32
    ensures q == p.(parseType := REG_DWORD, dataType := REG_DWORD, memory := q.memory, data := q.data, dataSize := 4, state := SettingValue)
    ensures Run(env, p, DWORD_TAG + digits + w) == Run(env, q, digits + w) && Payload(q) == Little(n)
  {
    hide Run, HexNumber, ConvertDword, Ending;
    var data := DWORD_TAG + digits + w;
    var p2 := p.(parseType := REG_DWORD, dataType := REG_DWORD, state := DwordData);
    assert data[6..] == digits + w && DWORD_TAG <= data && data[0] == DWORD_TAG[0];
    Take(env, p, data, p2, digits + w);
    ConvertEnding(digits, w);
    q := Step(env, p2, digits + w).0;
    Take(env, p2, digits + w, q, digits + w);
  }

  lemma {:induction false} RunNumber(env: Env, p: Parser, e: Edit, more: seq<Text>) returns (q: Parser)
    requires Ready(p) && e.Number? && Proper(e, p.erange) && p.lines == EditLines(e) + more
    ensures Run(env, p, []) == Run(env, q, []) && Ready(q) && q.lines == more && q.erange == p.erange && q.hkey == p.hkey
    ensures q.calls == p.calls + [SetValue(p.hkey, Value(e.name, REG_DWORD, Little(e.n)))]
  {
    hide Run, SkipBlanks, Ending, ValueText, HexNumber, Little;
    var data := DWORD_TAG + e.digits;
    assert data[0] == DWORD_TAG[0] && data[|data| - 1] == e.digits[|e.digits| - 1] && IsHex(e.digits[|e.digits| - 1]);
    var w := RunToData(env, p, e.name, data, e.gaps, more);
    var ready := RunNumberData(env, AtData(p, e.name, more), e.digits, w, e.n);
    RunSet(env, ready, e.digits + w);
    NamedBack(e.name);
    q := Step(env, ready, e.digits + w).0;
  }

  lemma {:induction false} EraseBrings(p: Parser, q: Parser, store: Store, e: Edit)
    requires e.Erase? && q.hkey == p.hkey && q.calls == p.calls + [DeleteValue(p.hkey, e.name)]
    ensures Brings(p, q, store, e)
  {
    hide Apply;
    ApplyMore(store, p.calls, DeleteValue(p.hkey, e.name));
    var s := Edited(Apply(store, p.calls), p.hkey);
    if KeyOpen(s) {
      assert Values(s) - {FoldText(e.name)} == map n | n in Values(s) && n != FoldText(e.name) :: Values(s)[n];
    }
  }

  // ---------------------------------------------------------------- the other edits

  lemma {:induction false} PutBrings(p: Parser, q: Parser, store: Store, v: Value)
    requires q.hkey == p.hkey && q.calls == p.calls + [SetValue(p.hkey, v)]
    ensures Edited(Apply(store, q.calls), q.hkey) == WithValue(Edited(Apply(store, p.calls), p.hkey), v)
  {
    hide Apply;
    ApplyMore(store, p.calls, SetValue(p.hkey, v));
  }

  lemma {:induction false} NothingBrings(p: Parser, q: Parser, store: Store, e: Edit)
    requires e.Idle? || e.Unclosed? || e.Unquoted? || e.NoData? || e.NoType?
    requires q.hkey == p.hkey && q.calls == p.calls
    ensures Brings(p, q, store, e)
  {
  }

  lemma {:induction false} RunPut(env: Env, p: Parser, e: Edit, more: seq<Text>, store: Store) returns (q: Parser)
    requires Ready(p) && e.Put? && Proper(e, p.erange) && p.lines == EditLines(e) + more
    ensures Run(env, p, []) == Run(env, q, []) && Ready(q) && q.lines == more && q.erange == p.erange && Brings(p, q, store, e)
  {
    hide Run, ValueLines, Canon, WellTyped, Apply, WithValue;
    q := RunValue(env, p, [], e.value, more);
    ValueFixed(e.value);
    PutBrings(p, q, store, e.value);
  }

  /** Between the rows of a list of bytes, lines with nothing but blanks and a comment are skipped. */
  lemma {:induction false} CommentBetweenRows(env: Env, p: Parser, pos: Text, blanks: Text, comment: Text, more: seq<Text>)
    requires p.state == HexMultiline && p.data.Heap? && Blanks(blanks) && Comment(comment)
    requires p.lines == [blanks + comment] + more
    ensures Run(env, p, pos) == Run(env, p.(lines := more), comment)
  {
    hide Run, SkipBlanks;
    SkipThem(blanks, comment);
    assert p.lines[1..] == more;
    Take(env, p, pos, p.(lines := more), comment);
  }

  /** Back at the start of a line with nothing done. */
  ghost predicate Passed(env: Env, p: Parser, q: Parser, more: seq<Text>) {
    Run(env, p, []) == Run(env, q, []) && Ready(q) && q.lines == more && q.erange == p.erange && q.hkey == p.hkey && q.calls == p.calls
  }

  lemma {:induction false} RunIdle(env: Env, p: Parser, line: Text, more: seq<Text>) returns (q: Parser)
    requires Ready(p) && Neutral(line) && p.lines == [line] + more
    ensures Passed(env, p, q, more)
  {
    hide Run;
    q := p.(lines := more);
    assert p.lines[1..] == more;
    Take(env, p, [], q, line);
    AnyPosition(env, q, line, []);
  }

  lemma {:induction false} RunUnclosed(env: Env, p: Parser, text: Text, more: seq<Text>) returns (q: Parser)
    requires Ready(p) && (RBRACKET !in text || (text != [] && IsBlank(text[0]))) && p.lines == [[LBRACKET] + text] + more
    ensures Passed(env, p, q, more)
  {
    hide Run, KeyFound;
    var line := [LBRACKET] + text;
    var k := p.(lines := more, state := KeyName);
    assert line[1..] == text && line[0] == LBRACKET;
    StepLine(env, p, [], line, more, k, text);
    q := p.(lines := more);
    assert RBRACKET !in text ==> LastBracket(text) == |text|;
    Take(env, k, text, q, text);
    AnyPosition(env, q, text, []);
  }

  lemma {:induction false} NoClosingQuote(s: Text)
    requires QUOTE !in s
    ensures !Unescape(s).ok
  {
    if s == [] || (s[0] == BACKSLASH && (|s| == 1 || s[1] == DIGIT_0)) {
    } else {
      NoClosingQuote(s[if s[0] == BACKSLASH then 2 else 1..]);
    }
  }

  lemma {:induction false} RunUnquoted(env: Env, p: Parser, text: Text, more: seq<Text>) returns (q: Parser)
    requires Ready(p) && QUOTE !in text && p.lines == [[QUOTE] + text] + more
    ensures Passed(env, p, q, more)
  {
    hide Run, Unescape;
    var line := [QUOTE] + text;
    var n := p.(lines := more, state := QuotedValueName);
    assert line[1..] == text && line[0] == QUOTE;
    StepLine(env, p, [], line, more, n, text);
    NoClosingQuote(text);
    q := p.(lines := more, valueName := None);
    Take(env, n, text, q, Unescape(text).text);
    AnyPosition(env, q, Unescape(text).text, []);
  }

  lemma {:induction false} RunNoData(env: Env, p: Parser, name: Text, blanks: Text, rest: Text, more: seq<Text>) returns (q: Parser)
    requires Ready(p) && NulFree(name) && Blanks(blanks) && (rest == [] || (rest[0] != EQUALS && !IsBlank(rest[0])))
    requires p.lines == [NameText(name) + blanks + rest] + more
    ensures Passed(env, p, q, more)
  {
    hide Run, SkipBlanks, NameText;
    Associate(NameText(name), blanks, rest);
    RunNameText(env, p, name, blanks + rest, more);
    SkipThem(blanks, rest);
    var at := AtData(p, name, more).(state := DataStart);
    q := at.(state := LineStart);
    Take(env, at, blanks + rest, q, rest);
    AnyPosition(env, q, rest, []);
  }

  lemma {:induction false} RunNoType(env: Env, p: Parser, name: Text, gaps: Gaps, data: Text, more: seq<Text>) returns (q: Parser)
    requires Ready(p) && NulFree(name) && gaps.Valid() && Untyped(data)
    requires p.lines == [NameText(name) + gaps.before + [EQUALS] + gaps.after + data] + more
    ensures Passed(env, p, q, more)
  {
    hide Run, SkipBlanks, NameText, TrimRight, DataStartState;
    var rest := gaps.before + [EQUALS] + gaps.after + data;
    assert NameText(name) + gaps.before + [EQUALS] + gaps.after + data == NameText(name) + rest;
    RunNameText(env, p, name, rest, more);
    var at, t := AtData(p, name, more), TrimRight(data);
    DataStartIs(at.(state := DataStart), gaps.before, gaps.after, data);
    TrimmedPart(data);
    assert t != [] ==> t[0] == data[0];
    Take(env, at.(state := DataStart), rest, at, t);
    q := at.(state := LineStart);
    Take(env, at, t, q, t);
    AnyPosition(env, q, t, []);
  }

  /** A line that can be read but does nothing. */
  lemma {:induction false} RunNothing(env: Env, p: Parser, e: Edit, more: seq<Text>) returns (q: Parser)
    requires e.Idle? || e.Unclosed? || e.Unquoted? || e.NoData? || e.NoType?
    requires Ready(p) && Proper(e, p.erange) && p.lines == EditLines(e) + more
    ensures Passed(env, p, q, more)
  {
    hide Passed, Ready, NameText, Blanks, Untyped;
    match e
    case Idle(line) => q := RunIdle(env, p, line, more);
    case Unclosed(text) => q := RunUnclosed(env, p, text, more);
    case Unquoted(text) => q := RunUnquoted(env, p, text, more);
    case NoData(name, blanks, rest) => q := RunNoData(env, p, name, blanks, rest, more);
    case NoType(name, gaps, data) => q := RunNoType(env, p, name, gaps, data, more);
  }

  lemma {:induction false} NoClassNamed(path: Text)
    requires NoClass(path)
    ensures FindClass(path) == None && KeyNamed(path) == None
  {
    forall h: nat | h < HIVES ensures !ClassMatches(path, h) {
      HiveNameIs(h);
      if |HiveName(h)| <= |path| { FoldIs(path[..|HiveName(h)|], HiveName(h)); }
      assert !StartsWithClass(path, h);
    }
  }

  /** A key line that names no class closes the open key. */
  lemma {:induction false} RunStray(env: Env, p: Parser, e: Edit, more: seq<Text>, store: Store) returns (q: Parser)
    requires Ready(p) && e.Stray? && Proper(e, p.erange) && p.lines == EditLines(e) + more
    ensures Run(env, p, []) == Run(env, q, []) && Ready(q) && q.lines == more && q.erange == p.erange && Brings(p, q, store, e)
  {
    hide Run, KeyNamed, NoClass, Apply;
    RunBrackets(env, p, e.path, e.tail, more);
    var at := p.(lines := more, state := KeyName);
    CloseChangesNothing(store, at);
    q := CloseCurrent(at).(state := LineStart);
    if e.path[0] == MINUS {
      Take(env, at.(state := DeleteKey), e.path[1..], q, e.path[1..]);
      AnyPosition(env, q, e.path[1..], []);
    } else {
      NoClassNamed(e.path);
      AnyPosition(env, q, e.path, []);
    }
  }

  lemma {:induction false} RunEdit(env: Env, p: Parser, e: Edit, more: seq<Text>, store: Store) returns (q: Parser)
    requires Ready(p) && Proper(e, p.erange) && p.lines == EditLines(e) + more
    ensures Run(env, p, []) == Run(env, q, []) && Ready(q) && q.lines == more && q.erange == p.erange && Brings(p, q, store, e)
  {
    hide Run, Ready, EditLines, Apply, WithValue, Opened, Removed;
    match e
    case Open(_, _, _, _) => q := RunOpen(env, p, e, more, store);
    case Remove(_, _, _, _) => q := RunRemove(env, p, e, more, store);
    case Stray(_, _) => q := RunStray(env, p, e, more, store);
    case Erase(_, _) =>
      q := RunErase(env, p, e, more);
      EraseBrings(p, q, store, e);
    case Phrase(name, text, _) =>
      q := RunPhrase(env, p, e, more);
      PutBrings(p, q, store, Value(name, REG_SZ, ToBytes(text + [NUL])));
    case Number(name, n, _, _) =>
      q := RunNumber(env, p, e, more);
      PutBrings(p, q, store, Value(name, REG_DWORD, Little(n)));
    case Put(_) => q := RunPut(env, p, e, more, store);
    case _ =>
      q := RunNothing(env, p, e, more);
      NothingBrings(p, q, store, e);
  }

  // --------------------------------------------------------------------- whole files

  ghost predicate AllProper(es: seq<Edit>, erange: bool) {
    forall i :: 0 <= i < |es| ==> Proper(es[i], erange)
  }

  function AllLines(es: seq<Edit>): seq<Text>
    requires forall i :: 0 <= i < |es| ==> (es[i].Put? ==> Exportable(es[i].value))
  {
    if es == [] then [] else EditLines(es[0]) + AllLines(es[1..])
  }

  lemma {:induction false} RunEdits(env: Env, p: Parser, es: seq<Edit>, more: seq<Text>, store: Store) returns (q: Parser)
    requires Ready(p) && AllProper(es, p.erange) && p.lines == AllLines(es) + more
    ensures Run(env, p, []) == Run(env, q, []) && Ready(q) && q.lines == more
    ensures Edited(Apply(store, q.calls), q.hkey) == AllDone(Edited(Apply(store, p.calls), p.hkey), es)
    decreases |es|
  {
    hide Run, Ready, Apply, Done, EditLines, Exportable, Neutral, ClassName, PlainNames, Plain, WellTyped;
    if es == [] {
      q := p;
    } else {
      assert Proper(es[0], p.erange);
      Associate(EditLines(es[0]), AllLines(es[1..]), more);
      var p1 := RunEdit(env, p, es[0], AllLines(es[1..]) + more, store);
      assert AllProper(es[1..], p1.erange) by { assert forall i :: 0 <= i < |es[1..]| ==> es[1..][i] == es[i + 1]; }
      q := RunEdits(env, p1, es[1..], more, store);
    }
  }

  lemma {:induction false} LastLine(env: Env, p: Parser)
    requires Ready(p) && p.lines == [[]]
    ensures Run(env, p, []) == p.(lines := [[]])
  {
    hide Run;
    var p1 := p.(lines := []);
    assert p.lines[1..] == [];
    Take(env, p, [], p1, []);
    RunStep(env, p1, []);
  }

  /** The first line of a file of edits: one of the two headers, perhaps after blanks. */
  predicate HeaderLine(head: Text) {
    exists n :: 0 <= n <= |head| && HeaderAfter(head, n)
  }

  predicate HeaderAfter(head: Text, n: nat)
    requires n <= |head|
  {
    Blanks(head[..n]) && (head[n..] == Wide("REGEDIT4") || head[n..] == Wide("Windows Registry Editor Version 5.00"))
  }

  lemma {:induction false} HeaderKinds()
    ensures HEADER_31 == Wide("REGEDIT") && HEADER_40 == Wide("REGEDIT4") && HEADER_50 == Wide("Windows Registry Editor Version 5.00")
    ensures HEADER_40 != HEADER_31 && HEADER_50 != HEADER_31 && HEADER_50 != HEADER_40
    ensures HEADER_40[0] == 0x52 && HEADER_50[0] == 0x57 && Plain(HEADER_40) && Plain(HEADER_50)
  {
    assert |HEADER_31| == 7 && |HEADER_40| == 8 && |HEADER_50| == 36;
    WidePrintable("REGEDIT4");
    WidePrintable("Windows Registry Editor Version 5.00");
  }

  lemma {:induction false} HeaderPlain(head: Text)
    requires HeaderLine(head)
    ensures Plain(head)
  {
    hide Plain;
    HeaderKinds();
    var n :| 0 <= n <= |head| && HeaderAfter(head, n);
    BlanksPlain(head[..n]);
    assert head == head[..n] + head[n..];
    PlainBoth(head[..n], head[n..]);
  }

  lemma {:induction false} PlainBoth(a: Text, b: Text)
    requires Plain(a) && Plain(b)
    ensures Plain(a + b)
  {
    PlainConcat(a, b);
  }

  lemma {:induction false} HeaderSkipped(head: Text)
    requires HeaderLine(head)
    ensures SkipBlanks(head) == HEADER_40 || SkipBlanks(head) == HEADER_50
  {
    HeaderKinds();
    var n :| 0 <= n <= |head| && HeaderAfter(head, n);
    assert head == head[..n] + head[n..];
    SkipThem(head[..n], head[n..]);
  }

  lemma {:induction false} RunHeader(env: Env, head: Text, rest: seq<Text>, erange: bool) returns (p: Parser)
    requires HeaderLine(head)
    ensures Run(env, Initial([head] + rest, erange), []) == Run(env, p, [])
    ensures Ready(p) && p.lines == rest && p.hkey == None && p.calls == [] && p.erange == erange
  {
    hide Run, SkipBlanks, HeaderLine;
    var start := Initial([head] + rest, erange);
    HeaderSkipped(head);
    HeaderKinds();
    assert ([head] + rest)[1..] == rest;
    p := start.(lines := rest, version := Some(ParseFileHeader(head)), state := LineStart);
    assert HeaderState(start, []) == (p, Some(head));
    Take(env, start, [], p, head);
    AnyPosition(env, p, head, []);
  }

  /** The lines of a file of edits do what the edits are to do. */
  lemma {:induction false} ImportLines(env: Env, head: Text, es: seq<Edit>, erange: bool, store: Store)
    requires HeaderLine(head) && AllProper(es, erange)
    ensures var r := Import(env, [head] + AllLines(es) + [[]], erange);
      r.Returned? && r.ok && Apply(store, r.calls) == AllDone(Edited(store, None), es).store
  {
    hide Run, Apply, AllLines, AllDone, HeaderLine;
    var rest := AllLines(es) + [[]];
    Associate([head], AllLines(es), [[]]);
    var p := RunHeader(env, head, rest, erange);
    var q := RunEdits(env, p, es, [[]], store);
    LastLine(env, q);
    ImportResult(env, [head] + rest, erange);
    CloseChangesNothing(store, q.(lines := [[]]));
    ApplyNone(store);
  }

  lemma {:induction false} ApplyNone(store: Store)
    ensures Apply(store, []) == store
  {
  }

  lemma {:induction false} EditOneLiners(e: Edit, erange: bool)
    requires Proper(e, erange)
    ensures OneLiners(EditLines(e))
  {
    hide Spelled, ValueLines, Escape, KeyNamed, NameText, ValueText, ClassName;
    match e
    case Open(cls, h, names, tail) =>
      KeySpelled(cls, h, names);
      BracketsPlain([LBRACKET], Spelled(cls, names), tail);
    case Remove(cls, h, names, tail) =>
      KeySpelled(cls, h, names);
      BracketsPlain([LBRACKET, MINUS], Spelled(cls, names), tail);
    case Stray(path, tail) => BracketsPlain([LBRACKET], path, tail);
    case Erase(name, gaps) => ValueOneLine(name, [MINUS], gaps);
    case Phrase(name, text, gaps) =>
      EscapeOneLine(text);
      ValueOneLine(name, [QUOTE] + Escape(text) + [QUOTE], gaps);
    case Number(name, _, digits, gaps) =>
      TagPlain(digits);
      ValueOneLine(name, DWORD_TAG + digits, gaps);
    case Put(v) => ValueUnlines(v);
    case NoData(name, blanks, rest) =>
      NameOneLine(name);
      BlanksPlain(blanks);
      PlainConcat(NameText(name) + blanks, rest);
    case NoType(name, gaps, data) =>
      NameOneLine(name);
      BlanksPlain(gaps.before);
      BlanksPlain(gaps.after);
      PlainConcat(NameText(name) + gaps.before + [EQUALS] + gaps.after, data);
    case _ =>
  }

  lemma {:induction false} BracketsPlain(open: Text, path: Text, tail: Text)
    requires Plain(open) && Plain(path) && Plain(tail)
    ensures Plain(open + path + [RBRACKET] + tail)
  {
    PlainConcat(open, path);
    PlainConcat(open + path, [RBRACKET]);
    PlainConcat(open + path + [RBRACKET], tail);
  }

  lemma {:induction false} BlanksPlain(t: Text)
    requires Blanks(t)
    ensures Plain(t)
  {
  }

  lemma {:induction false} TagPlain(digits: Text)
    requires AllHex(digits)
    ensures Plain(DWORD_TAG + digits)
  {
    WidePrintable("dword:");
    AllHexOneLine(digits);
    PlainConcat(DWORD_TAG, digits);
  }

  lemma {:induction false} NameOneLine(name: Text)
    ensures Plain(NameText(name))
  {
    EscapeOneLine(name);
  }

  lemma {:induction false} ValueOneLine(name: Text, data: Text, gaps: Gaps)
    requires Plain(data) && gaps.Valid()
    ensures Plain(ValueText(name, data, gaps))
  {
    hide NameText;
    NameOneLine(name);
    BlanksPlain(gaps.before);
    BlanksPlain(gaps.after);
    BlanksPlain(gaps.behind);
    var rest := data + gaps.behind + gaps.comment;
    PlainConcat(data, gaps.behind);
    PlainConcat(data + gaps.behind, gaps.comment);
    PlainConcat(gaps.before, [EQUALS]);
    PlainConcat(gaps.before + [EQUALS], gaps.after);
    PlainConcat(gaps.before + [EQUALS] + gaps.after, rest);
    PlainConcat(NameText(name), gaps.before + [EQUALS] + gaps.after + rest);
  }

  lemma {:induction false} AllOneLiners(es: seq<Edit>, erange: bool)
    requires AllProper(es, erange)
    ensures OneLiners(AllLines(es))
  {
    hide EditLines, OneLiners, Exportable, Neutral, ClassName, PlainNames, Plain, WellTyped;
    if es == [] {
      NoLines();
    } else {
      assert Proper(es[0], erange);
      EditOneLiners(es[0], erange);
      assert AllProper(es[1..], erange) by { assert forall i :: 0 <= i < |es[1..]| ==> es[1..][i] == es[i + 1]; }
      AllOneLiners(es[1..], erange);
      OneLinersConcat(EditLines(es[0]), AllLines(es[1..]));
    }
  }

  lemma {:induction false} NoLines()
    ensures OneLiners([])
  {
  }

  /** The text of a file: its first line and the lines of its edits, each ended by CRLF. */
  function EditFile(head: Text, es: seq<Edit>): Text
    requires forall i :: 0 <= i < |es| ==> (es[i].Put? ==> Exportable(es[i].value))
  {
    Unlines([head] + AllLines(es))
  }

  /**
   A file of edits, however it is read, over any registry: the import succeeds and does
   what its edits are to do, one after the other.
   */
  lemma {:induction false} ImportEdits(env: Env, head: Text, es: seq<Edit>, erange: bool, chunks: seq<Text>, store: Store)
    requires HeaderLine(head) && AllProper(es, erange) && ValidChunks(chunks) && Concat(chunks) == EditFile(head, es)
    ensures var r := Import(env, Lines(Reader(0, None, chunks)), erange);
      r.Returned? && r.ok && Apply(store, r.calls) == AllDone(Edited(store, None), es).store
  {
    hide Unlines, SplitLines, AllLines, AllDone, Import, HeaderLine;
    var ls := [head] + AllLines(es);
    HeaderPlain(head);
    AllOneLiners(es, erange);
    OneLinersConcat([head], AllLines(es));
    UnlinesNulFree(ls);
    SplitUnlines(ls);
    ImportChunkIndependent(env, chunks, erange);
    ImportLines(env, head, es, erange, store);
  }
}
