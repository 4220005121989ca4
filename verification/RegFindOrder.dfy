/**
 The order of "find next", stated on entries alone: hives in turn; within a hive keys by their paths,
 compared name by name without case, a key before everything below it, its values before its subkeys.
 */
module RegFindOrder {
  import opened Basics
  import opened WideText
  import opened Registry
  import opened RegFind

  /** The paths agree up to i, where p ends or has the smaller name. */
  predicate BeforeAt(p: seq<Text>, r: seq<Text>, i: nat) {
    i <= |p| && i < |r| && p[..i] == r[..i] && (i == |p| || Less(p[i], r[i]))
  }

  ghost predicate PathBefore(p: seq<Text>, r: seq<Text>) {
    exists i: nat :: BeforeAt(p, r, i)
  }

  ghost predicate Precedes(e: Entry, f: Entry) {
    || e.hive < f.hive
    || (e.hive == f.hive && PathBefore(e.path, f.path))
    || (e.hive == f.hive && e.path == f.path && f.ValueEntry? && (e.KeyEntry? || Less(e.value.name, f.value.name)))
  }

  ghost predicate Ordered(es: seq<Entry>) {
    forall i, j :: 0 <= i < j < |es| ==> Precedes(es[i], es[j])
  }

  ghost predicate AllBefore(a: seq<Entry>, b: seq<Entry>) {
    forall e, f :: e in a && f in b ==> Precedes(e, f)
  }

  lemma {:induction false} OrderedConcat(a: seq<Entry>, b: seq<Entry>)
    requires Ordered(a) && Ordered(b) && AllBefore(a, b)
    ensures Ordered(a + b)
  {
    hide Precedes;
    forall i, j | 0 <= i < j < |a + b| ensures Precedes((a + b)[i], (a + b)[j]) {
      if j < |a| {
        assert (a + b)[i] == a[i] && (a + b)[j] == a[j];
      } else if i >= |a| {
        assert (a + b)[i] == b[i - |a|] && (a + b)[j] == b[j - |a|];
      } else {
        assert (a + b)[i] == a[i] && (a + b)[j] == b[j - |a|] && a[i] in a && b[j - |a|] in b;
      }
    }
  }

  /** Entries of one hive, below a key or at it. */
  ghost predicate At(es: seq<Entry>, h: nat, path: seq<Text>) {
    forall e :: e in es ==> e.hive == h && path <= e.path
  }

  lemma {:induction false} ValuesAt(h: nat, path: seq<Text>, vs: seq<Value>)
    ensures forall e :: e in ValueEntries(h, path, vs) ==> e.hive == h && e.path == path && e.ValueEntry? && e.value in vs
  {
    if vs != [] { ValuesAt(h, path, vs[1..]); }
  }

  lemma {:induction false} KeyAt(h: nat, path: seq<Text>, t: KeyTree)
    ensures At(KeyEntries(h, path, t), h, path)
    decreases t, 1
  {
    ValuesAt(h, path, t.values);
    SubkeysAt(h, path, t.subkeys);
  }

  /** What stands among the entries of subkeys is below one of them. */
  lemma {:induction false} SubkeysAt(h: nat, path: seq<Text>, ts: seq<KeyTree>)
    ensures forall e :: e in SubkeyEntries(h, path, ts) ==>
      e.hive == h && path <= e.path && |e.path| > |path| && exists s :: s in ts && e.path[|path|] == s.name
    decreases ts, 0
  {
    if ts != [] {
      var sub := path + [ts[0].name];
      KeyAt(h, sub, ts[0]);
      SubkeysAt(h, path, ts[1..]);
      forall e | e in SubkeyEntries(h, path, ts)
        ensures e.hive == h && path <= e.path && |e.path| > |path| && exists s :: s in ts && e.path[|path|] == s.name
      {
        if e in SubkeyEntries(h, path, ts[1..]) {
          var s :| s in ts[1..] && e.path[|path|] == s.name;
          assert s in ts;
        } else {
          assert sub <= e.path && e.path[|path|] == sub[|path|] && e.path[..|path|] == sub[..|path|] && ts[0] in ts;
        }
      }
    }
  }

  lemma {:induction false} ValuesOrdered(h: nat, path: seq<Text>, vs: seq<Value>)
    requires Ascending(ValueName, vs)
    ensures Ordered(ValueEntries(h, path, vs))
  {
    if vs != [] {
      assert forall i :: 0 <= i < |vs| - 1 ==> vs[1..][i] == vs[i + 1];
      ValuesOrdered(h, path, vs[1..]);
      ValuesAt(h, path, vs[1..]);
      var first := [ValueEntry(h, path, vs[0])];
      forall e, f | e in first && f in ValueEntries(h, path, vs[1..]) ensures Precedes(e, f) {
        var k :| 0 <= k < |vs[1..]| && vs[1..][k] == f.value;
        assert vs[k + 1] == f.value && ValueName(vs[0]) == vs[0].name;
      }
      OrderedConcat(first, ValueEntries(h, path, vs[1..]));
    }
  }

  lemma {:induction false} DeeperLater(e: Entry, f: Entry)
    requires e.hive == f.hive && e.path < f.path
    ensures Precedes(e, f)
  {
    assert BeforeAt(e.path, f.path, |e.path|);
  }

  lemma {:induction false} SiblingLater(e: Entry, f: Entry, path: seq<Text>)
    requires e.hive == f.hive && path <= e.path && path <= f.path && |path| < |e.path| && |path| < |f.path|
    requires Less(e.path[|path|], f.path[|path|])
    ensures Precedes(e, f)
  {
    assert BeforeAt(e.path, f.path, |path|);
  }

  /** A subkey and everything below it, before its later siblings. */
  lemma {:induction false} FirstBefore(h: nat, path: seq<Text>, ts: seq<KeyTree>)
    requires ts != [] && Ascending(SubkeyName, ts)
    ensures AllBefore(OneSubkey(h, path, ts[0]), SubkeyEntries(h, path, ts[1..]))
  {
    var sub := path + [ts[0].name];
    KeyAt(h, sub, ts[0]);
    SubkeysAt(h, path, ts[1..]);
    forall e, f | e in OneSubkey(h, path, ts[0]) && f in SubkeyEntries(h, path, ts[1..]) ensures Precedes(e, f) {
      assert sub <= e.path && e.path[|path|] == sub[|path|] && e.path[..|path|] == sub[..|path|];
      var s :| s in ts[1..] && f.path[|path|] == s.name;
      var k :| 0 <= k < |ts[1..]| && ts[1..][k] == s;
      assert ts[k + 1] == s && SubkeyName(ts[0]) == ts[0].name && SubkeyName(s) == s.name;
      SiblingLater(e, f, path);
    }
  }

  lemma {:induction false} OneOrdered(h: nat, path: seq<Text>, t: KeyTree)
    requires Ordered(KeyEntries(h, path + [t.name], t))
    ensures Ordered(OneSubkey(h, path, t))
  {
    var sub := path + [t.name];
    KeyAt(h, sub, t);
    BelowOnly(h, sub, t);
    var first := [KeyEntry(h, sub)];
    forall e, f | e in first && f in KeyEntries(h, sub, t) ensures Precedes(e, f) {
      if f.path != sub { DeeperLater(e, f); }
    }
    OrderedConcat(first, KeyEntries(h, sub, t));
  }

  /** At the key itself stand only its values. */
  lemma {:induction false} BelowOnly(h: nat, path: seq<Text>, t: KeyTree)
    ensures forall e :: e in KeyEntries(h, path, t) && e.path == path ==> e.ValueEntry?
  {
    ValuesAt(h, path, t.values);
    SubkeysAt(h, path, t.subkeys);
  }

  lemma {:induction false} KeyOrdered(h: nat, path: seq<Text>, t: KeyTree)
    requires SortedTree(t)
    ensures Ordered(KeyEntries(h, path, t))
    decreases t, 1
  {
    ValuesOrdered(h, path, t.values);
    SubkeysOrdered(h, path, t.subkeys);
    ValuesAt(h, path, t.values);
    SubkeysAt(h, path, t.subkeys);
    var vs, subs := ValueEntries(h, path, t.values), SubkeyEntries(h, path, t.subkeys);
    forall e, f | e in vs && f in subs ensures Precedes(e, f) { DeeperLater(e, f); }
    OrderedConcat(vs, subs);
  }

  lemma {:induction false} SubkeysOrdered(h: nat, path: seq<Text>, ts: seq<KeyTree>)
    requires Ascending(SubkeyName, ts) && forall s :: s in ts ==> SortedTree(s)
    ensures Ordered(SubkeyEntries(h, path, ts))
    decreases ts, 0
  {
    if ts != [] {
      assert ts[0] in ts && forall i :: 0 <= i < |ts| - 1 ==> ts[1..][i] == ts[i + 1];
      KeyOrdered(h, path + [ts[0].name], ts[0]);
      OneOrdered(h, path, ts[0]);
      SubkeysOrdered(h, path, ts[1..]);
      FirstBefore(h, path, ts);
      OrderedConcat(OneSubkey(h, path, ts[0]), SubkeyEntries(h, path, ts[1..]));
      SubkeyEntriesCons(h, path, ts[0], ts[1..]);
      assert ts == [ts[0]] + ts[1..];
    }
  }

  lemma {:induction false} HivesAt(hives: seq<KeyTree>, h: nat)
    ensures forall e :: e in HiveEntries(hives, h) ==> e.hive >= h
    decreases |hives| - h
  {
    if h < |hives| {
      KeyAt(h, [], hives[h]);
      HivesAt(hives, h + 1);
    }
  }

  /** The enumeration the search follows is ascending in that order. */
  lemma {:induction false} HivesOrdered(hives: seq<KeyTree>, h: nat)
    requires UniqueHives(hives)
    ensures Ordered(HiveEntries(SortHives(hives), h))
    decreases |hives| - h
  {
    hide KeyEntries, SortTree;
    if h < |hives| {
      SortTreeSorted(hives[h]);
      KeyOrdered(h, [], SortTree(hives[h]));
      HivesOrdered(hives, h + 1);
      KeyAt(h, [], SortTree(hives[h]));
      HivesAt(SortHives(hives), h + 1);
      OrderedConcat(KeyEntries(h, [], SortTree(hives[h])), HiveEntries(SortHives(hives), h + 1));
    }
  }

  lemma {:induction false} MatchesIn(q: Query, es: seq<Entry>)
    ensures forall e :: e in AllMatches(q, es) ==> e in es && Matches(q, e)
  {
    if es != [] { MatchesIn(q, es[1..]); }
  }

  lemma {:induction false} MatchesOrdered(q: Query, es: seq<Entry>)
    requires Ordered(es)
    ensures Ordered(AllMatches(q, es))
  {
    hide Precedes, Matches;
    if es != [] {
      assert forall i :: 0 <= i < |es| - 1 ==> es[1..][i] == es[i + 1];
      MatchesOrdered(q, es[1..]);
      if Matches(q, es[0]) {
        MatchesIn(q, es[1..]);
        forall f | f in AllMatches(q, es[1..]) ensures Precedes(es[0], f) {
          var k :| 0 <= k < |es[1..]| && es[1..][k] == f;
          assert es[k + 1] == f;
        }
        OrderedConcat([es[0]], AllMatches(q, es[1..]));
      }
    }
  }

  /** Find next, pressed until nothing is found, lists the matching entries of the registry in that order. */
  method FindInOrder(q: Query, hives: seq<KeyTree>) returns (hits: seq<Entry>)
    requires UniqueHives(hives) && hives != []
    ensures Ordered(hits) && multiset(hits) == multiset(AllMatches(q, HiveEntries(hives, 0)))
  {
    hits := FindAll(q, hives, 0, [], None);
    AheadOfHive(SortHives(hives), 0);
    HivesOrdered(hives, 0);
    MatchesOrdered(q, HiveEntries(SortHives(hives), 0));
  }

  /** Which entries those are: keys by their last name, values by name or data, each as the dialog asks for it. */
  lemma {:induction false} MatchMeans(q: Query, e: Entry)
    ensures e.KeyEntry? ==> (Matches(q, e) <==> q.keys && e.path != [] && Wanted(q, e.path[|e.path| - 1]))
    ensures e.ValueEntry? && !q.data ==> (Matches(q, e) <==> q.values && Wanted(q, e.value.name))
    ensures e.ValueEntry? && !q.values && (e.value.typ == REG_SZ || e.value.typ == REG_EXPAND_SZ || e.value.typ == REG_MULTI_SZ) ==>
      (Matches(q, e) <==> q.data && Wanted(q, FromBytes(e.value.data)))
    ensures e.ValueEntry? && !q.values && e.value.typ != REG_SZ && e.value.typ != REG_EXPAND_SZ && e.value.typ != REG_MULTI_SZ ==>
      !Matches(q, e)
    ensures e.ValueEntry? && q.values && q.data ==>
      (Matches(q, e) <==> Matches(q.(data := false), e) || Matches(q.(values := false), e))
  {
    if e.KeyEntry? {
      if e.path != [] { MatchesWanted(q, e.path[|e.path| - 1]); }
    } else {
      MatchesWanted(q, e.value.name);
      MatchesWanted(q, FromBytes(e.value.data));
      FlagsOnly(q, q.(data := false), e.value.name);
      FlagsOnly(q, q.(values := false), FromBytes(e.value.data));
    }
  }

  // --------------------------------------------------------- which entries there are

  /** An entry names a key that is there, and a value that key has. */
  ghost predicate There(root: KeyTree, e: Entry) {
    Open(root, e.path).Some? && (e.ValueEntry? ==> e.value in Open(root, e.path).value.values)
  }

  lemma {:induction false} KeyThere(h: nat, root: KeyTree, path: seq<Text>, t: KeyTree, e: Entry)
    requires Open(root, path) == Some(t) && Unique(t) && e in KeyEntries(h, path, t)
    ensures There(root, e)
    decreases t, 1, 0
  {
    ValuesAt(h, path, t.values);
    if e !in ValueEntries(h, path, t.values) {
      assert t.subkeys[0..] == t.subkeys;
      SubkeysThere(h, root, path, t, 0, e);
    }
  }

  lemma {:induction false} SubkeysThere(h: nat, root: KeyTree, path: seq<Text>, t: KeyTree, i: nat, e: Entry)
    requires Open(root, path) == Some(t) && Unique(t) && i <= |t.subkeys| && e in SubkeyEntries(h, path, t.subkeys[i..])
    ensures There(root, e)
    decreases t, 0, |t.subkeys| - i
  {
    var s := t.subkeys[i];
    assert t.subkeys[i..][1..] == t.subkeys[i + 1..] && s in t.subkeys;
    OpenChild(root, path, t, i);
    if e in KeyEntries(h, path + [s.name], s) {
      KeyThere(h, root, path + [s.name], s, e);
    } else if e in SubkeyEntries(h, path, t.subkeys[i + 1..]) {
      SubkeysThere(h, root, path, t, i + 1, e);
    }
  }

  lemma {:induction false} HivesThere(hives: seq<KeyTree>, from: nat, e: Entry)
    requires UniqueHives(hives) && e in HiveEntries(hives, from)
    ensures from <= e.hive < |hives| && There(hives[e.hive], e)
    decreases |hives| - from
  {
    if e in KeyEntries(from, [], hives[from]) {
      KeyAt(from, [], hives[from]);
      KeyThere(from, hives[from], [], hives[from], e);
    } else {
      HivesThere(hives, from + 1, e);
    }
  }

  lemma {:induction false} ValueIn(h: nat, path: seq<Text>, vs: seq<Value>, v: Value)
    requires v in vs
    ensures ValueEntry(h, path, v) in ValueEntries(h, path, vs)
  {
    if v != vs[0] { ValueIn(h, path, vs[1..], v); }
  }

  /** Nothing but what is there is enumerated, and every key and value reached by its exact path is. */
  lemma {:induction false} EnumeratesExactly(hives: seq<KeyTree>, e: Entry)
    requires UniqueHives(hives)
    ensures e in HiveEntries(hives, 0) ==> e.hive < |hives| && There(hives[e.hive], e)
    ensures e.hive < |hives| && ExactPath(hives[e.hive], e.path) && There(hives[e.hive], e) && (e.KeyEntry? ==> e.path != []) ==>
      e in HiveEntries(hives, 0)
  {
    hide HiveEntries;
    if e in HiveEntries(hives, 0) { HivesThere(hives, 0, e); }
    if e.hive < |hives| && ExactPath(hives[e.hive], e.path) && There(hives[e.hive], e) {
      KeyEnumerated(hives, e.hive, e.path);
      var t := Open(hives[e.hive], e.path).value;
      if e.ValueEntry? {
        ValueIn(e.hive, e.path, t.values, e.value);
        assert e in KeyEntries(e.hive, e.path, t);
      }
    }
  }

  lemma {:induction false} FlagsOnly(q: Query, r: Query, t: Text)
    requires q.what == r.what && q.whole == r.whole && q.matchCase == r.matchCase
    ensures TextMatches(q, t) <==> TextMatches(r, t)
  {
  }
}
