/**
 The registry as the import and export code sees it: key trees with typed values,
 the trace of Win32 registry calls, and what a trace does to a store of keys.
 Names are looked up without regard to case and kept as written.
 */
module Registry {
  import opened WideText

  const REG_SZ: nat := 1
  const REG_EXPAND_SZ: nat := 2
  const REG_BINARY: nat := 3
  const REG_DWORD: nat := 4
  const REG_MULTI_SZ: nat := 7

  /** A key: one of the predefined classes and the names below it. */
  datatype KeyPath = KeyPath(hive: nat, names: seq<Text>)

  datatype Value = Value(name: Text, typ: nat, data: seq<Byte>)

  datatype KeyTree = KeyTree(name: Text, values: seq<Value>, subkeys: seq<KeyTree>)

  /** Registry calls the importer makes; a None key is the null handle. */
  datatype Call =
    | CreateKey(key: KeyPath)
    | CloseKey(key: KeyPath)
    | SetValue(handle: Option<KeyPath>, value: Value)
    | DeleteValue(handle: Option<KeyPath>, name: Text)
    | DeleteTree(key: KeyPath)

  datatype Node = Node(key: KeyPath, values: map<Text, Value>)

  /** Keys by case-folded path. */
  type Store = map<KeyPath, Node>

  function FoldNames(names: seq<Text>): (r: seq<Text>)
    ensures |r| == |names|
    ensures forall i :: 0 <= i < |names| ==> r[i] == FoldText(names[i])
  {
    seq(|names|, i requires 0 <= i < |names| => FoldText(names[i]))
  }

  function Id(k: KeyPath): KeyPath {
    KeyPath(k.hive, FoldNames(k.names))
  }

  function Child(k: KeyPath, name: Text): KeyPath {
    KeyPath(k.hive, k.names + [name])
  }

  function Parent(k: KeyPath): KeyPath
    requires k.names != []
  {
    KeyPath(k.hive, k.names[..|k.names| - 1])
  }

  lemma {:induction false} IdChild(k: KeyPath, name: Text)
    ensures Id(Child(k, name)) == Child(Id(k), FoldText(name))
    ensures Parent(Child(k, name)) == k
  {
  }

  /** RegCreateKeyExW: opens the key, creating it and any missing ancestor. */
  function Create(store: Store, k: KeyPath): (r: Store)
    ensures Id(k) in r
    decreases |k.names|
  {
    var above := if k.names == [] then store else Create(store, Parent(k));
    if Id(k) in above then above else above[Id(k) := Node(k, map[])]
  }

  function Below(k: KeyPath, id: KeyPath): bool {
    k.hive == id.hive && k.names <= id.names
  }

  function Perform(store: Store, c: Call): Store {
    match c
    case CreateKey(k) => Create(store, k)
    case CloseKey(_) => store
    case SetValue(h, v) =>
      if h.None? || Id(h.value) !in store then store else
      var node := store[Id(h.value)];
      store[Id(h.value) := node.(values := node.values[FoldText(v.name) := v])]
    case DeleteValue(h, name) =>
      if h.None? || Id(h.value) !in store then store else
      var node := store[Id(h.value)];
      store[Id(h.value) := node.(values := node.values - {FoldText(name)})]
    case DeleteTree(k) =>
      map id | id in store && !Below(Id(k), id) :: store[id]
  }

  function Apply(store: Store, calls: seq<Call>): Store
    decreases calls
  {
    if calls == [] then store else Apply(Perform(store, calls[0]), calls[1..])
  }

  lemma {:induction false} ApplyConcat(store: Store, a: seq<Call>, b: seq<Call>)
    ensures Apply(store, a + b) == Apply(Apply(store, a), b)
    decreases a
  {
    if a == [] {
      assert a + b == b;
    } else {
      assert (a + b)[1..] == a[1..] + b;
      ApplyConcat(Perform(store, a[0]), a[1..], b);
    }
  }

  /** The key most recently opened and not closed since. */
  function OpenKey(calls: seq<Call>): Option<KeyPath> {
    if calls == [] then None else
    match calls[|calls| - 1]
    case CreateKey(k) => Some(k)
    case CloseKey(_) => None
    case _ => OpenKey(calls[..|calls| - 1])
  }

  // ------------------------------------------------------------ trees in a store

  /** Values of one key by folded name. */
  function ValueMap(values: seq<Value>): map<Text, Value> {
    if values == [] then map[] else
    var n := |values| - 1;
    ValueMap(values[..n])[FoldText(values[n].name) := values[n]]
  }

  /** The keys and values of a tree rooted at k, and nothing else. */
  function Snapshot(k: KeyPath, t: KeyTree): Store
    decreases t, 1
  {
    map[Id(k) := Node(k, ValueMap(t.values))] + SnapshotAll(k, t.subkeys)
  }

  function SnapshotAll(k: KeyPath, ts: seq<KeyTree>): Store
    decreases ts, 0
  {
    if ts == [] then map[] else Snapshot(Child(k, ts[0].name), ts[0]) + SnapshotAll(k, ts[1..])
  }

  predicate DistinctNames(ts: seq<KeyTree>) {
    forall i, j :: 0 <= i < j < |ts| ==> FoldText(ts[i].name) != FoldText(ts[j].name)
  }

  /** No two subkeys of a key differ only in case. */
  predicate Unambiguous(t: KeyTree)
    decreases t
  {
    DistinctNames(t.subkeys) && forall s :: s in t.subkeys ==> Unambiguous(s)
  }

  predicate DistinctValues(vs: seq<Value>) {
    forall i, j :: 0 <= i < j < |vs| ==> FoldText(vs[i].name) != FoldText(vs[j].name)
  }

  /** With names distinct up to case, a key's map holds each of its values and no other. */
  lemma {:induction false} ValueMapExact(vs: seq<Value>)
    requires DistinctValues(vs)
    ensures forall i :: 0 <= i < |vs| ==> FoldText(vs[i].name) in ValueMap(vs) && ValueMap(vs)[FoldText(vs[i].name)] == vs[i]
    ensures forall n :: n in ValueMap(vs) ==> exists i :: 0 <= i < |vs| && FoldText(vs[i].name) == n
  {
    if vs == [] {
    } else {
      var n := |vs| - 1;
      ValueMapExact(vs[..n]);
      assert forall i :: 0 <= i < n ==> vs[..n][i] == vs[i];
    }
  }

  /** The calls that write one key: open, set each value, close. */
  function KeyCalls(k: KeyPath, values: seq<Value>): seq<Call> {
    [CreateKey(k)] + SetCalls(k, values) + [CloseKey(k)]
  }

  function SetCalls(k: KeyPath, values: seq<Value>): seq<Call> {
    if values == [] then [] else
    var n := |values| - 1;
    SetCalls(k, values[..n]) + [SetValue(Some(k), values[n])]
  }

  /** The calls that write a tree, keys before their subkeys. */
  function TreeCalls(k: KeyPath, t: KeyTree): seq<Call>
    decreases t, 1
  {
    KeyCalls(k, t.values) + ForestCalls(k, t.subkeys)
  }

  function ForestCalls(k: KeyPath, ts: seq<KeyTree>): seq<Call>
    decreases ts, 0
  {
    if ts == [] then [] else TreeCalls(Child(k, ts[0].name), ts[0]) + ForestCalls(k, ts[1..])
  }

  lemma {:induction false} ApplySetCalls(store: Store, k: KeyPath, values: seq<Value>)
    requires Id(k) in store && store[Id(k)] == Node(k, map[])
    ensures Apply(store, SetCalls(k, values)) == store[Id(k) := Node(k, ValueMap(values))]
  {
    if values == [] {
      assert store[Id(k) := Node(k, map[])] == store;
    } else {
      var n := |values| - 1;
      ApplySetCalls(store, k, values[..n]);
      var last := [SetValue(Some(k), values[n])];
      ApplyConcat(store, SetCalls(k, values[..n]), last);
      assert last[1..] == [];
    }
  }

  ghost predicate NothingBelow(store: Store, id: KeyPath) {
    forall x :: x in store ==> !Below(id, x)
  }

  /** Every key's parent is there too. */
  ghost predicate Rooted(store: Store) {
    forall id :: id in store && id.names != [] ==> Parent(id) in store
  }

  lemma {:induction false} IdParent(k: KeyPath)
    requires k.names != []
    ensures Id(Parent(k)) == Parent(Id(k))
  {
    assert FoldNames(Parent(k).names) == Parent(Id(k)).names;
  }

  /** Opening a key that exists changes nothing. */
  lemma {:induction false} CreateExisting(store: Store, k: KeyPath)
    requires Rooted(store) && Id(k) in store
    ensures Create(store, k) == store
    decreases |k.names|
  {
    if k.names != [] {
      IdParent(k);
      CreateExisting(store, Parent(k));
    }
  }

  /** Opening a key adds only ancestors-or-self and keeps the store rooted. */
  lemma {:induction false} CreateKeeps(store: Store, k: KeyPath)
    ensures forall id :: id in store ==> id in Create(store, k) && Create(store, k)[id] == store[id]
    decreases |k.names|
  {
    hide Id;
    if k.names != [] { CreateKeeps(store, Parent(k)); }
  }

  lemma {:induction false} CreateBelow(store: Store, k: KeyPath)
    ensures forall id :: id in Create(store, k) && id !in store ==> Below(id, Id(k))
    decreases |k.names|
  {
    if k.names != [] {
      IdParent(k);
      CreateBelow(store, Parent(k));
    }
  }

  lemma {:induction false} CreateRoots(store: Store, k: KeyPath)
    requires Rooted(store)
    ensures Rooted(Create(store, k))
    decreases |k.names|
  {
    if k.names != [] {
      IdParent(k);
      CreateRoots(store, Parent(k));
    }
  }

  lemma {:induction false} CreateRooted(store: Store, k: KeyPath)
    requires Rooted(store)
    ensures Rooted(Create(store, k))
    ensures forall id :: id in Create(store, k) && id !in store ==> Below(id, Id(k))
    ensures forall id :: id in store ==> id in Create(store, k) && Create(store, k)[id] == store[id]
  {
    CreateKeeps(store, k);
    CreateBelow(store, k);
    CreateRoots(store, k);
  }

  lemma {:induction false} ApplyCons(store: Store, c: Call, rest: seq<Call>)
    ensures Apply(store, [c] + rest) == Apply(Perform(store, c), rest)
  {
    assert ([c] + rest)[1..] == rest;
  }

  lemma {:induction false} CreateNew(store: Store, k: KeyPath)
    requires Rooted(store) && Id(k) !in store
    requires k.names == [] || Id(Parent(k)) in store
    ensures Perform(store, CreateKey(k)) == store[Id(k) := Node(k, map[])]
  {
    if k.names != [] { CreateExisting(store, Parent(k)); }
  }

  lemma {:induction false} ApplyKeyCalls(store: Store, k: KeyPath, values: seq<Value>)
    requires Rooted(store) && Id(k) !in store
    requires k.names == [] || Id(Parent(k)) in store
    ensures Apply(store, KeyCalls(k, values)) == store[Id(k) := Node(k, ValueMap(values))]
  {
    var s1 := store[Id(k) := Node(k, map[])];
    var sets := SetCalls(k, values);
    var close := [CloseKey(k)];
    CreateNew(store, k);
    assert KeyCalls(k, values) == [CreateKey(k)] + (sets + close);
    ApplyCons(store, CreateKey(k), sets + close);
    ApplyConcat(s1, sets, close);
    ApplySetCalls(s1, k, values);
    assert close[1..] == [];
  }

  lemma {:induction false} SnapshotBelow(k: KeyPath, t: KeyTree)
    ensures forall id :: id in Snapshot(k, t) ==> Below(Id(k), id)
    decreases t, 1
  {
    SnapshotAllBelow(k, t.subkeys);
  }

  /** Each key of a forest lies below one of its roots. */
  lemma {:induction false} SnapshotAllBelow(k: KeyPath, ts: seq<KeyTree>)
    ensures forall id :: id in SnapshotAll(k, ts) ==>
      Below(Id(k), id) && exists i :: 0 <= i < |ts| && Below(Id(Child(k, ts[i].name)), id)
    decreases ts, 0
  {
    if ts != [] {
      SnapshotBelow(Child(k, ts[0].name), ts[0]);
      SnapshotAllBelow(k, ts[1..]);
      forall id | id in SnapshotAll(k, ts)
        ensures Below(Id(k), id) && exists i :: 0 <= i < |ts| && Below(Id(Child(k, ts[i].name)), id)
      {
        if id in SnapshotAll(k, ts[1..]) {
          var i :| 0 <= i < |ts[1..]| && Below(Id(Child(k, ts[1..][i].name)), id);
          assert ts[1..][i] == ts[i + 1];
        } else {
          assert Below(Id(Child(k, ts[0].name)), id);
          IdChild(k, ts[0].name);
        }
      }
    }
  }

  lemma {:induction false} SiblingsApart(k: KeyPath, a: Text, b: Text, id: KeyPath)
    requires FoldText(a) != FoldText(b) && Below(Id(Child(k, a)), id)
    ensures !Below(Id(Child(k, b)), id)
  {
    IdChild(k, a);
    IdChild(k, b);
    assert Id(Child(k, a)).names[|k.names|] == FoldText(a);
    assert Id(Child(k, b)).names[|k.names|] == FoldText(b);
  }

  lemma {:induction false} UnionAssociative(a: Store, b: Store, c: Store)
    ensures (a + b) + c == a + (b + c)
  {
  }

  lemma {:induction false} UpdateThenUnion(a: Store, id: KeyPath, node: Node, b: Store)
    ensures a[id := node] + b == a + (map[id := node] + b)
  {
    assert a[id := node] == a + map[id := node];
    UnionAssociative(a, map[id := node], b);
  }

  lemma {:induction false} ChildrenUntouched(store: Store, k: KeyPath, node: Node, name: Text)
    requires NothingBelow(store, Id(k))
    ensures NothingBelow(store[Id(k) := node], Id(Child(k, name)))
  {
    IdChild(k, name);
  }

  /** Writing a tree where nothing was adds exactly its snapshot. */
  lemma {:induction false} WriteTree(store: Store, k: KeyPath, t: KeyTree)
    requires Rooted(store) && NothingBelow(store, Id(k)) && Unambiguous(t)
    requires k.names == [] || Id(Parent(k)) in store
    ensures Apply(store, TreeCalls(k, t)) == store + Snapshot(k, t)
    ensures Rooted(store + Snapshot(k, t))
    decreases t, 1
  {
    var s1 := store[Id(k) := Node(k, ValueMap(t.values))];
    ApplyKeyCalls(store, k, t.values);
    ApplyConcat(store, KeyCalls(k, t.values), ForestCalls(k, t.subkeys));
    if k.names != [] { IdParent(k); }
    forall i | 0 <= i < |t.subkeys| ensures NothingBelow(s1, Id(Child(k, t.subkeys[i].name))) {
      ChildrenUntouched(store, k, Node(k, ValueMap(t.values)), t.subkeys[i].name);
    }
    WriteForest(s1, k, t.subkeys);
    UpdateThenUnion(store, Id(k), Node(k, ValueMap(t.values)), SnapshotAll(k, t.subkeys));
  }

  lemma {:induction false} WriteForest(store: Store, k: KeyPath, ts: seq<KeyTree>)
    requires Rooted(store) && Id(k) in store && DistinctNames(ts)
    requires forall s :: s in ts ==> Unambiguous(s)
    requires forall i :: 0 <= i < |ts| ==> NothingBelow(store, Id(Child(k, ts[i].name)))
    ensures Apply(store, ForestCalls(k, ts)) == store + SnapshotAll(k, ts)
    ensures Rooted(store + SnapshotAll(k, ts))
    decreases ts, 0
  {
    if ts == [] {
      assert store + map[] == store;
    } else {
      var c := Child(k, ts[0].name);
      var s1 := store + Snapshot(c, ts[0]);
      IdChild(k, ts[0].name);
      assert NothingBelow(store, Id(c));
      WriteTree(store, c, ts[0]);
      ApplyConcat(store, TreeCalls(c, ts[0]), ForestCalls(k, ts[1..]));
      SnapshotBelow(c, ts[0]);
      forall i | 0 <= i < |ts[1..]| ensures NothingBelow(s1, Id(Child(k, ts[1..][i].name))) {
        assert ts[1..][i] == ts[i + 1];
        assert NothingBelow(store, Id(Child(k, ts[i + 1].name)));
        forall id | id in Snapshot(c, ts[0]) ensures !Below(Id(Child(k, ts[i + 1].name)), id) {
          SiblingsApart(k, ts[0].name, ts[i + 1].name, id);
        }
      }
      WriteForest(s1, k, ts[1..]);
      UnionAssociative(store, Snapshot(c, ts[0]), SnapshotAll(k, ts[1..]));
    }
  }

  /** The store with the ancestors of k in place. */
  function WithAncestors(store: Store, k: KeyPath): Store {
    if k.names == [] then store else Create(store, Parent(k))
  }

  /**
   Writing a tree at a place where no key exists yet leaves every other key alone,
   adds the missing ancestors, and puts exactly the tree there.
   */
  lemma {:induction false} WriteTreeAnywhere(store: Store, k: KeyPath, t: KeyTree)
    requires Rooted(store) && NothingBelow(store, Id(k)) && Unambiguous(t)
    ensures Apply(store, TreeCalls(k, t)) == WithAncestors(store, k) + Snapshot(k, t)
    ensures Rooted(WithAncestors(store, k) + Snapshot(k, t))
  {
    var above := WithAncestors(store, k);
    if k.names != [] {
      CreateRooted(store, Parent(k));
      CreateExisting(above, Parent(k));
      IdParent(k);
    }
    assert Create(store, k) == Create(above, k);
    assert TreeCalls(k, t)[0] == CreateKey(k);
    assert Apply(store, TreeCalls(k, t)) == Apply(above, TreeCalls(k, t));
    WriteTree(above, k, t);
  }
}
