/**
 "Find next" in the registry editor: matching, the recursive search below a key, and
 the walk that climbs to later siblings and on to the next hives.
 */
module RegFind {
  import opened Basics
  import opened WideText
  import opened Registry

  // ------------------------------------------------------------------- matching

  /** What to look for and where: the find dialog's flags. */
  datatype Query = Query(what: Text, whole: bool, keys: bool, values: bool, data: bool, matchCase: bool)

  function Cased(q: Query, t: Text): Text {
    if q.matchCase then t else FoldText(t)
  }

  predicate OccursAt(hay: Text, needle: Text, i: nat) {
    i + |needle| <= |hay| && hay[i..i + |needle|] == needle
  }

  ghost predicate Occurs(hay: Text, needle: Text) {
    exists i: nat :: OccursAt(hay, needle, i)
  }

  /** Equal or contained, with or without regard to case. */
  ghost predicate TextMatches(q: Query, t: Text) {
    if q.whole then Cased(q, t) == Cased(q, q.what) else Occurs(Cased(q, t), Cased(q, q.what))
  }

  /** MatchData: only string types are searched, over all their code units. */
  ghost predicate DataMatches(q: Query, v: Value) {
    (v.typ == REG_SZ || v.typ == REG_EXPAND_SZ || v.typ == REG_MULTI_SZ) && TextMatches(q, FromBytes(v.data))
  }

  /** Folding the whole text folds each part of it. */
  lemma {:induction false} FoldPart(t: Text, i: nat, j: nat)
    requires i <= j <= |t|
    ensures FoldText(t)[i..j] == FoldText(t[i..j])
  {
  }

  /** The text stands at i up to case. */
  predicate StandsAt(t: Text, what: Text, i: nat) {
    i + |what| <= |t| && SameLetters(t[i..i + |what|], what)
  }

  lemma {:induction false} OccursFolded(t: Text, what: Text, i: nat)
    ensures OccursAt(FoldText(t), FoldText(what), i) <==> StandsAt(t, what, i)
  {
    if i + |what| <= |t| {
      FoldPart(t, i, i + |what|);
      FoldIs(t[i..i + |what|], what);
    }
  }

  /** What the two flags of the dialog mean, whole string and match case, character by character. */
  ghost predicate Wanted(q: Query, t: Text) {
    if q.whole then if q.matchCase then t == q.what else SameLetters(t, q.what)
    else if q.matchCase then exists i: nat :: OccursAt(t, q.what, i)
    else exists i: nat :: StandsAt(t, q.what, i)
  }

  lemma {:induction false} MatchesWanted(q: Query, t: Text)
    ensures TextMatches(q, t) <==> Wanted(q, t)
  {
    hide FoldText, StandsAt;
    if !q.matchCase {
      FoldIs(t, q.what);
      forall i: nat ensures OccursAt(FoldText(t), FoldText(q.what), i) <==> StandsAt(t, q.what, i) { OccursFolded(t, q.what, i); }
      if Occurs(FoldText(t), FoldText(q.what)) {
        var i: nat :| OccursAt(FoldText(t), FoldText(q.what), i);
        assert StandsAt(t, q.what, i);
      }
    }
  }

  /** Without match case, the case of letters in the text or in what is looked for makes no difference. */
  lemma {:induction false} CaseIrrelevant(q: Query, r: Query, s: Text, t: Text)
    requires !q.matchCase && r == q.(what := r.what) && SameLetters(q.what, r.what) && SameLetters(s, t)
    ensures TextMatches(q, s) <==> TextMatches(r, t)
  {
    FoldIs(q.what, r.what);
    FoldIs(s, t);
  }

  /** The comparing loop shared by lstrstri and MatchString. */
  method Contains(hay: Text, needle: Text) returns (found: bool)
    ensures found <==> Occurs(hay, needle)
  {
    var i := 0;
    while i + |needle| <= |hay|
      invariant forall k: nat :: k < i ==> !OccursAt(hay, needle, k)
    {
      if hay[i..i + |needle|] == needle {
        assert OccursAt(hay, needle, i);
        return true;
      }
      i := i + 1;
    }
    return false;
  }

  /** CompareName, and MatchString on counted text. */
  method CompareText(q: Query, t: Text) returns (r: bool)
    ensures r <==> Wanted(q, t)
    ensures r <==> TextMatches(q, t)
  {
    MatchesWanted(q, t);
    if q.whole {
      r := Cased(q, t) == Cased(q, q.what);
    } else {
      r := Contains(Cased(q, t), Cased(q, q.what));
    }
  }

  method CompareData(q: Query, v: Value) returns (r: bool)
    ensures r <==> (v.typ == REG_SZ || v.typ == REG_EXPAND_SZ || v.typ == REG_MULTI_SZ) && Wanted(q, FromBytes(v.data))
    ensures r <==> DataMatches(q, v)
  {
    if v.typ == REG_SZ || v.typ == REG_EXPAND_SZ || v.typ == REG_MULTI_SZ {
      r := CompareText(q, FromBytes(v.data));
    } else {
      r := false;
    }
  }

  // --------------------------------------------------------- pre-order enumeration

  /** A place the search can stop at: a key, or a value of a key. */
  datatype Entry = KeyEntry(hive: nat, path: seq<Text>) | ValueEntry(hive: nat, path: seq<Text>, value: Value)

  ghost predicate Matches(q: Query, e: Entry) {
    match e
    case KeyEntry(_, path) => q.keys && path != [] && TextMatches(q, path[|path| - 1])
    case ValueEntry(_, _, v) => (q.values && TextMatches(q, v.name)) || (q.data && DataMatches(q, v))
  }

  function ValueEntries(h: nat, path: seq<Text>, vs: seq<Value>): (r: seq<Entry>)
    ensures |r| == |vs|
  {
    if vs == [] then [] else [ValueEntry(h, path, vs[0])] + ValueEntries(h, path, vs[1..])
  }

  /** Everything below a key: its values, then each subkey followed by everything below it. */
  function KeyEntries(h: nat, path: seq<Text>, t: KeyTree): seq<Entry>
    decreases t, 1
  {
    ValueEntries(h, path, t.values) + SubkeyEntries(h, path, t.subkeys)
  }

  function SubkeyEntries(h: nat, path: seq<Text>, ts: seq<KeyTree>): seq<Entry>
    decreases ts, 0
  {
    if ts == [] then [] else
    var sub := path + [ts[0].name];
    [KeyEntry(h, sub)] + KeyEntries(h, sub, ts[0]) + SubkeyEntries(h, path, ts[1..])
  }

  /** All entries of the hives from h on, in search order. */
  function HiveEntries(hives: seq<KeyTree>, h: nat): seq<Entry>
    decreases |hives| - h
  {
    if h >= |hives| then [] else KeyEntries(h, [], hives[h]) + HiveEntries(hives, h + 1)
  }

  ghost function FirstMatch(q: Query, es: seq<Entry>): Option<Entry> {
    if es == [] then None else if Matches(q, es[0]) then Some(es[0]) else FirstMatch(q, es[1..])
  }

  ghost function OrElse(a: Option<Entry>, b: Option<Entry>): Option<Entry> {
    if a.Some? then a else b
  }

  lemma {:induction false} FirstMatchConcat(q: Query, a: seq<Entry>, b: seq<Entry>)
    ensures FirstMatch(q, a + b) == OrElse(FirstMatch(q, a), FirstMatch(q, b))
  {
    if a == [] {
      assert a + b == b;
    } else {
      assert (a + b)[1..] == a[1..] + b;
      FirstMatchConcat(q, a[1..], b);
    }
  }

  /** The entry at i matches and none before it does. */
  ghost predicate FirstAt(q: Query, es: seq<Entry>, i: nat) {
    i < |es| && Matches(q, es[i]) && forall k :: 0 <= k < i ==> !Matches(q, es[k])
  }

  lemma {:induction false} FirstLater(q: Query, es: seq<Entry>, i: nat)
    requires es != [] && !Matches(q, es[0]) && FirstAt(q, es[1..], i)
    ensures FirstAt(q, es, i + 1) && es[i + 1] == es[1..][i]
  {
    hide Matches;
    forall k | 0 <= k < i + 1 ensures !Matches(q, es[k]) { if k > 0 { assert es[k] == es[1..][k - 1]; } }
  }

  /** The result of FirstMatch, stated without recursion. */
  lemma {:induction false} FirstMatchIs(q: Query, es: seq<Entry>)
    ensures FirstMatch(q, es).None? <==> forall i :: 0 <= i < |es| ==> !Matches(q, es[i])
    ensures FirstMatch(q, es).Some? ==> exists i: nat :: FirstAt(q, es, i) && es[i] == FirstMatch(q, es).value
  {
    hide Matches;
    if es == [] {
    } else if Matches(q, es[0]) {
      assert FirstAt(q, es, 0);
    } else {
      FirstMatchIs(q, es[1..]);
      assert forall i :: 1 <= i < |es| ==> es[i] == es[1..][i - 1];
      if FirstMatch(q, es[1..]).Some? {
        var i: nat :| FirstAt(q, es[1..], i) && es[1..][i] == FirstMatch(q, es[1..]).value;
        FirstLater(q, es, i);
      }
    }
  }

  // ------------------------------------------------------------ what comes after

  predicate SameName(a: Text, b: Text) {
    FoldText(a) == FoldText(b)
  }

  /** The values after the first one with the given name; none when there is no such value. */
  function ValuesPast(vs: seq<Value>, name: Text): seq<Value> {
    if vs == [] then [] else if SameName(vs[0].name, name) then vs[1..] else ValuesPast(vs[1..], name)
  }

  function KeysPast(ts: seq<KeyTree>, name: Text): seq<KeyTree> {
    if ts == [] then [] else if SameName(ts[0].name, name) then ts[1..] else KeysPast(ts[1..], name)
  }

  /** What is searched in a key when the search starts at one of its values, or at the key. */
  function ValuesFrom(vs: seq<Value>, start: Option<Text>): seq<Value> {
    if start.None? then vs else ValuesPast(vs, start.value)
  }

  function EntriesFrom(h: nat, path: seq<Text>, t: KeyTree, start: Option<Text>): seq<Entry> {
    ValueEntries(h, path, ValuesFrom(t.values, start)) + SubkeyEntries(h, path, t.subkeys)
  }

  function FindChild(ts: seq<KeyTree>, name: Text): (r: Option<KeyTree>)
    ensures r.Some? ==> r.value in ts
  {
    if ts == [] then None else if SameName(ts[0].name, name) then Some(ts[0]) else FindChild(ts[1..], name)
  }

  /** RegOpenKeyExW on a path below a hive. */
  function Open(t: KeyTree, path: seq<Text>): Option<KeyTree>
    decreases |path|
  {
    if path == [] then Some(t) else
    var parent := Open(t, path[..|path| - 1]);
    if parent.None? then None else FindChild(parent.value.subkeys, path[|path| - 1])
  }

  /** Everything after the subtree at path: later siblings, then later siblings of each ancestor. */
  function Later(h: nat, root: KeyTree, path: seq<Text>): seq<Entry>
    requires Open(root, path).Some?
    decreases |path|
  {
    if path == [] then [] else
    var up := path[..|path| - 1];
    SubkeyEntries(h, up, KeysPast(Open(root, up).value.subkeys, path[|path| - 1])) + Later(h, root, up)
  }

  /** Everything the search visits from a starting key and value. */
  function Ahead(hives: seq<KeyTree>, h: nat, path: seq<Text>, start: Option<Text>): seq<Entry>
    requires h < |hives| && Open(hives[h], path).Some?
  {
    EntriesFrom(h, path, Open(hives[h], path).value, start) + Later(h, hives[h], path) + HiveEntries(hives, h + 1)
  }

  // ---------------------------------------------------------------------- sorting

  /** _wcsicmp(a, b) < 0 */
  predicate Less(a: Text, b: Text) {
    b != [] && (a == [] || Lower(a[0]) < Lower(b[0]) || (Lower(a[0]) == Lower(b[0]) && Less(a[1..], b[1..])))
  }

  lemma {:induction false} LessTransitive(a: Text, b: Text, c: Text)
    requires Less(a, b) && Less(b, c)
    ensures Less(a, c)
  {
    if a != [] && Lower(a[0]) == Lower(b[0]) && Lower(b[0]) == Lower(c[0]) { LessTransitive(a[1..], b[1..], c[1..]); }
  }

  lemma {:induction false} LessTotal(a: Text, b: Text)
    ensures Less(a, b) || Less(b, a) || SameName(a, b)
    ensures !(Less(a, b) && SameName(a, b))
  {
    if a != [] && b != [] { LowerSame(a[0], b[0]); }
    if a != [] && b != [] && Lower(a[0]) == Lower(b[0]) {
      LessTotal(a[1..], b[1..]);
      assert FoldText(a) == [Fold(a[0])] + FoldText(a[1..]);
      assert FoldText(b) == [Fold(b[0])] + FoldText(b[1..]);
    } else if a == [] && b == [] {
      assert FoldText(a) == FoldText(b);
    } else if a != [] && b != [] {
      assert FoldText(a)[0] != FoldText(b)[0];
    }
  }

  /** The two texts agree without case up to i, and there a's lower-case letter is the smaller one. */
  predicate SmallerAt(a: Text, b: Text, i: nat) {
    i < |a| && i < |b| && SameLetters(a[..i], b[..i]) && Lower(a[i]) < Lower(b[i])
  }

  lemma {:induction false} LowerLetters(a: WChar, b: WChar)
    ensures Lower(a) == Lower(b) <==> SameLetter(a, b)
  {
  }

  lemma {:induction false} LettersCons(a: Text, b: Text, n: nat)
    requires 0 < n <= |a| && n <= |b|
    ensures SameLetters(a[..n], b[..n]) <==> SameLetter(a[0], b[0]) && SameLetters(a[1..][..n - 1], b[1..][..n - 1])
  {
    var s, t, u, v := a[..n], b[..n], a[1..][..n - 1], b[1..][..n - 1];
    assert forall k :: 0 <= k < n - 1 ==> u[k] == s[k + 1] && v[k] == t[k + 1];
    assert forall k :: 1 <= k < n ==> s[k] == u[k - 1] && t[k] == v[k - 1];
  }

  /** The order without recursion: a proper prefix, or smaller at the first difference. */
  lemma {:induction false} LessIs(a: Text, b: Text)
    ensures Less(a, b) <==> (|a| < |b| && SameLetters(a, b[..|a|])) || exists i: nat :: SmallerAt(a, b, i)
  {
    hide SameLetters, SameLetter, Lower;
    if a == [] || b == [] {
      NoLetters();
      assert a == [] ==> b[..|a|] == [];
    } else {
      LessIs(a[1..], b[1..]);
      LowerLetters(a[0], b[0]);
      NoLetters();
      assert a[..0] == [] && b[..0] == [];
      if |a| <= |b| {
        LettersCons(a, b, |a|);
        assert a[..|a|] == a && a[1..][..|a| - 1] == a[1..] && b[1..][..|a| - 1] == b[1..][..|a[1..]|];
      }
      forall i: nat | 0 < i < |a| && i < |b| ensures SmallerAt(a, b, i) <==> SameLetter(a[0], b[0]) && SmallerAt(a[1..], b[1..], i - 1) {
        LettersCons(a, b, i);
      }
      if Lower(a[0]) < Lower(b[0]) { assert SmallerAt(a, b, 0); }
      if SameLetter(a[0], b[0]) && exists i: nat :: SmallerAt(a[1..], b[1..], i) {
        var i: nat :| SmallerAt(a[1..], b[1..], i);
        assert SmallerAt(a, b, i + 1);
      }
    }
  }

  lemma {:induction false} NoLetters()
    ensures SameLetters([], [])
  {
  }

  /** Ascending by name, no name twice. */
  predicate Ascending<T>(name: T -> Text, xs: seq<T>) {
    forall i, j :: 0 <= i < j < |xs| ==> Less(name(xs[i]), name(xs[j]))
  }

  function Insert<T>(name: T -> Text, x: T, xs: seq<T>): (r: seq<T>)
    ensures multiset(r) == multiset(xs) + multiset{x}
  {
    if xs == [] || !Less(name(xs[0]), name(x)) then
      assert multiset([x] + xs) == multiset(xs) + multiset{x};
      [x] + xs
    else
      var rest := Insert(name, x, xs[1..]);
      assert xs == [xs[0]] + xs[1..];
      [xs[0]] + rest
  }

  /** qsort by name; on the distinct names of a key there is only one order. */
  function SortBy<T>(name: T -> Text, xs: seq<T>): (r: seq<T>)
    ensures multiset(r) == multiset(xs)
  {
    if xs == [] then [] else
    assert xs == [xs[0]] + xs[1..];
    Insert(name, xs[0], SortBy(name, xs[1..]))
  }

  lemma {:induction false} InsertAscending<T>(name: T -> Text, x: T, xs: seq<T>)
    requires Ascending(name, xs) && forall y :: y in xs ==> !SameName(name(x), name(y))
    ensures Ascending(name, Insert(name, x, xs))
  {
    var r := Insert(name, x, xs);
    if xs == [] {
    } else if !Less(name(xs[0]), name(x)) {
      assert xs[0] in xs;
      LessTotal(name(x), name(xs[0]));
      forall j | 0 <= j < |xs| ensures Less(name(x), name(xs[j])) {
        if j > 0 { LessTransitive(name(x), name(xs[0]), name(xs[j])); }
      }
    } else {
      var rest := Insert(name, x, xs[1..]);
      InsertAscending(name, x, xs[1..]);
      forall j | 0 <= j < |rest| ensures Less(name(xs[0]), name(rest[j])) {
        assert rest[j] in multiset(rest);
        if rest[j] != x {
          assert rest[j] in multiset(xs[1..]);
          assert rest[j] in xs[1..];
        }
      }
    }
  }

  lemma {:induction false} SortAscending<T>(name: T -> Text, xs: seq<T>)
    requires forall i, j :: 0 <= i < j < |xs| ==> !SameName(name(xs[i]), name(xs[j]))
    ensures Ascending(name, SortBy(name, xs))
  {
    if xs != [] {
      var rest := xs[1..];
      SortAscending(name, rest);
      var sorted := SortBy(name, rest);
      forall y | y in sorted ensures !SameName(name(xs[0]), name(y)) {
        assert y in multiset(sorted) && y in multiset(rest) && y in rest;
        var i :| 0 <= i < |rest| && rest[i] == y;
        assert xs[i + 1] == y;
      }
      InsertAscending(name, xs[0], sorted);
    }
  }

  lemma {:induction false} AscendingDistinct<T>(name: T -> Text, xs: seq<T>)
    requires Ascending(name, xs)
    ensures forall i, j :: 0 <= i < j < |xs| ==> !SameName(name(xs[i]), name(xs[j]))
  {
    forall i, j | 0 <= i < j < |xs| ensures !SameName(name(xs[i]), name(xs[j])) { LessTotal(name(xs[i]), name(xs[j])); }
  }

  function ValueName(v: Value): Text { v.name }

  function SubkeyName(t: KeyTree): Text { t.name }

  /** The registry as find.c enumerates it: names sorted at every level. */
  function SortTree(t: KeyTree): KeyTree
    decreases t, 1
  {
    KeyTree(t.name, SortBy(ValueName, t.values), SortBy(SubkeyName, SortForest(t.subkeys)))
  }

  function SortForest(ts: seq<KeyTree>): (r: seq<KeyTree>)
    ensures |r| == |ts| && forall i :: 0 <= i < |ts| ==> r[i].name == ts[i].name
    decreases ts, 0
  {
    if ts == [] then [] else [SortTree(ts[0])] + SortForest(ts[1..])
  }

  lemma {:induction false} SortForestIn(ts: seq<KeyTree>, x: KeyTree) returns (s: KeyTree)
    requires x in SortForest(ts)
    ensures s in ts && x == SortTree(s)
  {
    if x == SortTree(ts[0]) {
      s := ts[0];
    } else {
      assert x in SortForest(ts[1..]);
      s := SortForestIn(ts[1..], x);
    }
  }

  lemma {:induction false} SortForestAt(ts: seq<KeyTree>, i: nat)
    requires i < |ts|
    ensures SortForest(ts)[i] == SortTree(ts[i])
  {
    if i > 0 { SortForestAt(ts[1..], i - 1); }
  }

  lemma {:induction false} SortForestCons(x: KeyTree, xs: seq<KeyTree>)
    ensures SortForest([x] + xs) == [SortTree(x)] + SortForest(xs)
  {
    assert ([x] + xs)[1..] == xs;
  }

  lemma {:induction false} SortForestInsert(x: KeyTree, xs: seq<KeyTree>)
    ensures Insert(SubkeyName, SortTree(x), SortForest(xs)) == SortForest(Insert(SubkeyName, x, xs))
  {
    if xs == [] || !Less(xs[0].name, x.name) {
      SortForestCons(x, xs);
    } else {
      SortForestInsert(x, xs[1..]);
      SortForestCons(xs[0], Insert(SubkeyName, x, xs[1..]));
      assert SortForest(xs)[1..] == SortForest(xs[1..]);
    }
  }

  /** Sorting the names first and what is below each key later gives the same as the other way round. */
  lemma {:induction false} SortCommutes(ts: seq<KeyTree>)
    ensures SortBy(SubkeyName, SortForest(ts)) == SortForest(SortBy(SubkeyName, ts))
  {
    if ts != [] {
      SortCommutes(ts[1..]);
      SortForestInsert(ts[0], SortBy(SubkeyName, ts[1..]));
      assert SortForest(ts)[1..] == SortForest(ts[1..]);
    }
  }

  lemma {:induction false} SortedIn<T>(name: T -> Text, xs: seq<T>, x: T)
    ensures x in SortBy(name, xs) <==> x in xs
  {
    assert x in multiset(SortBy(name, xs)) <==> x in multiset(xs);
  }

  function Depth(t: KeyTree): nat
    decreases t, 1
  {
    1 + ForestDepth(t.subkeys)
  }

  function ForestDepth(ts: seq<KeyTree>): nat
    decreases ts, 0
  {
    if ts == [] then 0 else
    var d := ForestDepth(ts[1..]);
    if Depth(ts[0]) > d then Depth(ts[0]) else d
  }

  lemma {:induction false} ForestDepthIn(ts: seq<KeyTree>, s: KeyTree)
    requires s in ts
    ensures Depth(s) <= ForestDepth(ts)
  {
    if s != ts[0] { ForestDepthIn(ts[1..], s); }
  }

  /** The sorted subkeys are still the key's own. */
  lemma {:induction false} SortedBelow(t: KeyTree)
    ensures forall s :: s in SortBy(SubkeyName, t.subkeys) ==> Depth(s) < Depth(t)
  {
    forall s | s in SortBy(SubkeyName, t.subkeys) ensures Depth(s) < Depth(t) {
      SortedIn(SubkeyName, t.subkeys, s);
      ForestDepthIn(t.subkeys, s);
    }
  }

  // ---------------------------------------------------------------- the search

  /** The value loop of RegFindRecurse, with its fPast flag. */
  method SearchValues(q: Query, h: nat, path: seq<Text>, vs: seq<Value>, start: Option<Text>) returns (r: Option<Entry>)
    ensures r == FirstMatch(q, ValueEntries(h, path, ValuesFrom(vs, start)))
  {
    var past := start.None?;
    var i := 0;
    assert vs[0..] == vs;
    while i < |vs|
      invariant 0 <= i <= |vs| && (!past ==> start.Some?)
      invariant FirstMatch(q, ValueEntries(h, path, ValuesFrom(vs, start))) ==
        FirstMatch(q, ValueEntries(h, path, if past then vs[i..] else ValuesPast(vs[i..], start.value)))
    {
      assert vs[i..][1..] == vs[i + 1..];
      if !past {
        if SameName(vs[i].name, start.value) { past := true; }
      } else {
        var hit := false;
        if q.values { hit := CompareText(q, vs[i].name); }
        if !hit && q.data { hit := CompareData(q, vs[i]); }
        ghost var es := ValueEntries(h, path, vs[i..]);
        assert es[0] == ValueEntry(h, path, vs[i]) && es[1..] == ValueEntries(h, path, vs[i + 1..]);
        if hit { return Some(ValueEntry(h, path, vs[i])); }
      }
      i := i + 1;
    }
    return None;
  }

  /** RegFindRecurse: the sorted values from the start, then each of the sorted subkeys by name and by content. */
  method FindRecurse(q: Query, h: nat, path: seq<Text>, t: KeyTree, start: Option<Text>) returns (r: Option<Entry>)
    ensures r == FirstMatch(q, EntriesFrom(h, path, SortTree(t), start))
    decreases Depth(t), 1
  {
    var values := SortBy(ValueName, t.values);
    r := SearchValues(q, h, path, values, start);
    var subkeys := SortBy(SubkeyName, t.subkeys);
    SortCommutes(t.subkeys);
    SortedBelow(t);
    FirstMatchConcat(q, ValueEntries(h, path, ValuesFrom(values, start)), SubkeyEntries(h, path, SortForest(subkeys)));
    if r.None? { r := SearchSubkeys(q, h, path, subkeys, Depth(t)); }
  }

  /** The loop over sorted subkeys, shared by RegFindRecurse and the sibling loop of RegFindWalk. */
  method SearchSubkeys(q: Query, h: nat, path: seq<Text>, ts: seq<KeyTree>, ghost depth: nat) returns (r: Option<Entry>)
    requires forall s :: s in ts ==> Depth(s) < depth
    ensures r == FirstMatch(q, SubkeyEntries(h, path, SortForest(ts)))
    decreases depth, 0
  {
    hide SortTree, SubkeyEntries, FirstMatch, TextMatches, EntriesFrom, SortForest, FirstFrom;
    var i := 0;
    ghost var forest := SortForest(ts);
    FirstFromStart(q, h, path, forest);
    while i < |ts|
      invariant 0 <= i <= |ts| == |forest|
      invariant FirstMatch(q, SubkeyEntries(h, path, forest)) == FirstFrom(q, h, path, forest, i)
    {
      var sub := path + [ts[i].name];
      SortForestAt(ts, i);
      SubkeyStep(q, h, path, forest, i);
      if q.keys {
        var hit := CompareText(q, ts[i].name);
        if hit { return Some(KeyEntry(h, sub)); }
      }
      r := FindRecurse(q, h, sub, ts[i], None);
      if r.Some? { return; }
      i := i + 1;
    }
    FirstFromEnd(q, h, path, forest);
    return None;
  }

  /** The first match among the subkeys from i on, and below them. */
  ghost function FirstFrom(q: Query, h: nat, path: seq<Text>, ts: seq<KeyTree>, i: nat): Option<Entry>
    requires i <= |ts|
  {
    FirstMatch(q, SubkeyEntries(h, path, ts[i..]))
  }

  lemma {:induction false} FirstFromStart(q: Query, h: nat, path: seq<Text>, ts: seq<KeyTree>)
    ensures FirstFrom(q, h, path, ts, 0) == FirstMatch(q, SubkeyEntries(h, path, ts))
  {
    assert ts[0..] == ts;
  }

  lemma {:induction false} FirstFromEnd(q: Query, h: nat, path: seq<Text>, ts: seq<KeyTree>)
    ensures FirstFrom(q, h, path, ts, |ts|) == None
  {
  }

  /** One subkey: its own name, then everything below it, then the others. */
  lemma {:induction false} SubkeyStep(q: Query, h: nat, path: seq<Text>, ts: seq<KeyTree>, i: nat)
    requires i < |ts|
    ensures var sub := path + [ts[i].name];
      FirstFrom(q, h, path, ts, i) ==
        if q.keys && TextMatches(q, ts[i].name) then Some(KeyEntry(h, sub))
        else OrElse(FirstMatch(q, EntriesFrom(h, sub, ts[i], None)), FirstFrom(q, h, path, ts, i + 1))
  {
    var sub := path + [ts[i].name];
    var below, others := KeyEntries(h, sub, ts[i]), SubkeyEntries(h, path, ts[i + 1..]);
    assert ts[i..][1..] == ts[i + 1..];
    assert below == EntriesFrom(h, sub, ts[i], None);
    var es := SubkeyEntries(h, path, ts[i..]);
    assert es == [KeyEntry(h, sub)] + below + others;
    assert es[1..] == below + others;
    FirstMatchConcat(q, below, others);
  }

  lemma {:induction false} KeysPastSorted(ts: seq<KeyTree>, name: Text)
    ensures KeysPast(SortForest(ts), name) == SortForest(KeysPast(ts, name))
  {
    if ts != [] {
      assert SortForest(ts)[1..] == SortForest(ts[1..]);
      KeysPastSorted(ts[1..], name);
    }
  }

  lemma {:induction false} KeysPastIn(ts: seq<KeyTree>, name: Text, s: KeyTree)
    requires s in KeysPast(ts, name)
    ensures s in ts
  {
    if ts != [] && !SameName(ts[0].name, name) { KeysPastIn(ts[1..], name, s); }
  }

  /** The siblings after a name, in the order of the names. */
  method SkipTo(ts: seq<KeyTree>, name: Text) returns (later: seq<KeyTree>)
    ensures later == KeysPast(ts, name)
  {
    var i := 0;
    assert ts[0..] == ts;
    while i < |ts| && !SameName(ts[i].name, name)
      invariant 0 <= i <= |ts| && KeysPast(ts, name) == KeysPast(ts[i..], name)
    {
      assert ts[i..][1..] == ts[i + 1..];
      i := i + 1;
    }
    if i == |ts| { return []; }
    assert ts[i..][1..] == ts[i + 1..];
    later := ts[i + 1..];
  }

  /** The sibling loop of RegFindWalk: sorts, skips up to the key climbed from, then searches. */
  method SearchSiblings(q: Query, h: nat, up: seq<Text>, t: KeyTree, name: Text) returns (r: Option<Entry>)
    ensures r == FirstMatch(q, SubkeyEntries(h, up, KeysPast(SortTree(t).subkeys, name)))
  {
    var sorted := SortBy(SubkeyName, t.subkeys);
    SortCommutes(t.subkeys);
    KeysPastSorted(sorted, name);
    SortedBelow(t);
    var later := SkipTo(sorted, name);
    forall s | s in later ensures Depth(s) < Depth(t) { KeysPastIn(sorted, name, s); }
    r := SearchSubkeys(q, h, up, later, Depth(t));
  }

  // -------------------------------------------------- sorting and the enumeration

  lemma {:induction false} FindChildInsert(x: KeyTree, xs: seq<KeyTree>, name: Text)
    ensures FindChild(Insert(SubkeyName, x, xs), name) == if SameName(x.name, name) then Some(x) else FindChild(xs, name)
  {
    if xs == [] || !Less(xs[0].name, x.name) {
      assert ([x] + xs)[1..] == xs;
    } else {
      LessTotal(xs[0].name, x.name);
      var rest := Insert(SubkeyName, x, xs[1..]);
      FindChildInsert(x, xs[1..], name);
      assert ([xs[0]] + rest)[1..] == rest;
    }
  }

  lemma {:induction false} FindChildSorted(ts: seq<KeyTree>, name: Text)
    ensures FindChild(SortBy(SubkeyName, ts), name) == FindChild(ts, name)
  {
    if ts != [] {
      FindChildSorted(ts[1..], name);
      FindChildInsert(ts[0], SortBy(SubkeyName, ts[1..]), name);
    }
  }

  function Sorted(t: Option<KeyTree>): Option<KeyTree> {
    if t.None? then None else Some(SortTree(t.value))
  }

  lemma {:induction false} FindChildForest(ts: seq<KeyTree>, name: Text)
    ensures FindChild(SortForest(ts), name) == Sorted(FindChild(ts, name))
  {
    if ts != [] {
      assert SortForest(ts)[1..] == SortForest(ts[1..]);
      FindChildForest(ts[1..], name);
    }
  }

  /** A path opens the same key in the sorted registry, sorted. */
  lemma {:induction false} OpenSorted(t: KeyTree, path: seq<Text>)
    ensures Open(SortTree(t), path) == Sorted(Open(t, path))
    decreases |path|
  {
    if path != [] {
      var up, name := path[..|path| - 1], path[|path| - 1];
      OpenSorted(t, up);
      if Open(t, up).Some? {
        var ts := Open(t, up).value.subkeys;
        SortCommutes(ts);
        FindChildSorted(ts, name);
        FindChildForest(SortBy(SubkeyName, ts), name);
      }
    }
  }

  function SortHives(hives: seq<KeyTree>): (r: seq<KeyTree>)
    ensures |r| == |hives| && forall h :: 0 <= h < |hives| ==> r[h] == SortTree(hives[h])
  {
    seq(|hives|, h requires 0 <= h < |hives| => SortTree(hives[h]))
  }

  lemma {:induction false} ValueEntriesCons(h: nat, path: seq<Text>, v: Value, vs: seq<Value>)
    ensures ValueEntries(h, path, [v] + vs) == [ValueEntry(h, path, v)] + ValueEntries(h, path, vs)
  {
    assert ([v] + vs)[1..] == vs;
  }

  lemma {:induction false} SubkeyEntriesCons(h: nat, path: seq<Text>, t: KeyTree, ts: seq<KeyTree>)
    ensures SubkeyEntries(h, path, [t] + ts) == OneSubkey(h, path, t) + SubkeyEntries(h, path, ts)
  {
    assert ([t] + ts)[1..] == ts;
  }

  /** A subkey and everything below it. */
  function OneSubkey(h: nat, path: seq<Text>, t: KeyTree): seq<Entry> {
    [KeyEntry(h, path + [t.name])] + KeyEntries(h, path + [t.name], t)
  }

  lemma {:induction false} InsertedValueEntries(h: nat, path: seq<Text>, v: Value, vs: seq<Value>)
    ensures multiset(ValueEntries(h, path, Insert(ValueName, v, vs)))
         == multiset([ValueEntry(h, path, v)]) + multiset(ValueEntries(h, path, vs))
  {
    if vs == [] || !Less(vs[0].name, v.name) {
      ValueEntriesCons(h, path, v, vs);
    } else {
      InsertedValueEntries(h, path, v, vs[1..]);
      ValueEntriesCons(h, path, vs[0], Insert(ValueName, v, vs[1..]));
    }
  }

  lemma {:induction false} SortedValueEntries(h: nat, path: seq<Text>, vs: seq<Value>)
    ensures multiset(ValueEntries(h, path, SortBy(ValueName, vs))) == multiset(ValueEntries(h, path, vs))
  {
    if vs != [] {
      SortedValueEntries(h, path, vs[1..]);
      InsertedValueEntries(h, path, vs[0], SortBy(ValueName, vs[1..]));
    }
  }

  lemma {:induction false} InsertedSubkeyEntries(h: nat, path: seq<Text>, t: KeyTree, ts: seq<KeyTree>)
    ensures multiset(SubkeyEntries(h, path, Insert(SubkeyName, t, ts)))
         == multiset(OneSubkey(h, path, t)) + multiset(SubkeyEntries(h, path, ts))
  {
    hide OneSubkey, KeyEntries;
    if ts == [] || !Less(ts[0].name, t.name) {
      SubkeyEntriesCons(h, path, t, ts);
    } else {
      InsertedSubkeyEntries(h, path, t, ts[1..]);
      SubkeyEntriesCons(h, path, ts[0], Insert(SubkeyName, t, ts[1..]));
      SubkeyEntriesCons(h, path, ts[0], ts[1..]);
      assert ts == [ts[0]] + ts[1..];
    }
  }

  lemma {:induction false} SortedSubkeyEntries(h: nat, path: seq<Text>, ts: seq<KeyTree>)
    ensures multiset(SubkeyEntries(h, path, SortBy(SubkeyName, ts))) == multiset(SubkeyEntries(h, path, ts))
  {
    hide OneSubkey, KeyEntries;
    if ts != [] {
      SortedSubkeyEntries(h, path, ts[1..]);
      InsertedSubkeyEntries(h, path, ts[0], SortBy(SubkeyName, ts[1..]));
      SubkeyEntriesCons(h, path, ts[0], ts[1..]);
      assert ts == [ts[0]] + ts[1..];
    }
  }

  /** Sorting leaves the entries below a key as they are, each as often as before. */
  lemma {:induction false} SortedKeyEntries(h: nat, path: seq<Text>, t: KeyTree)
    ensures multiset(KeyEntries(h, path, SortTree(t))) == multiset(KeyEntries(h, path, t))
    decreases t, 1
  {
    SortedValueEntries(h, path, t.values);
    SortedSubkeyEntries(h, path, SortForest(t.subkeys));
    SortedForestEntries(h, path, t.subkeys);
  }

  lemma {:induction false} SortedForestEntries(h: nat, path: seq<Text>, ts: seq<KeyTree>)
    ensures multiset(SubkeyEntries(h, path, SortForest(ts))) == multiset(SubkeyEntries(h, path, ts))
    decreases ts, 0
  {
    hide KeyEntries;
    if ts != [] {
      SortedKeyEntries(h, path + [ts[0].name], ts[0]);
      SortedForestEntries(h, path, ts[1..]);
      SubkeyEntriesCons(h, path, ts[0], ts[1..]);
      SubkeyEntriesCons(h, path, SortTree(ts[0]), SortForest(ts[1..]));
      assert ts == [ts[0]] + ts[1..];
    }
  }

  /** The sorted and the stored registry hold the same entries. */
  lemma {:induction false} SortedHiveEntries(hives: seq<KeyTree>, h: nat)
    ensures multiset(HiveEntries(SortHives(hives), h)) == multiset(HiveEntries(hives, h))
    decreases |hives| - h
  {
    hide KeyEntries;
    if h < |hives| {
      SortedKeyEntries(h, [], hives[h]);
      SortedHiveEntries(hives, h + 1);
    }
  }

  // -------------------------------------------------------------------- the walk

  /** The climb of RegFindWalk: the later siblings of the key, then of each of its ancestors. */
  method Climb(q: Query, h: nat, root: KeyTree, path: seq<Text>) returns (r: Option<Entry>)
    requires Open(root, path).Some?
    ensures Open(SortTree(root), path).Some? && r == FirstMatch(q, Later(h, SortTree(root), path))
  {
    hide SortTree, SubkeyEntries;
    ghost var sorted := SortTree(root);
    OpenSorted(root, path);
    var at := path;
    while at != []
      invariant Open(root, at).Some? && Open(sorted, at).Some?
      invariant FirstMatch(q, Later(h, sorted, path)) == FirstMatch(q, Later(h, sorted, at))
      decreases |at|
    {
      var name, up := at[|at| - 1], at[..|at| - 1];
      OpenSorted(root, up);
      r := SearchSiblings(q, h, up, Open(root, up).value, name);
      FirstMatchConcat(q, SubkeyEntries(h, up, KeysPast(Open(sorted, up).value.subkeys, name)), Later(h, sorted, up));
      if r.Some? { return; }
      at := up;
    }
    return None;
  }

  /** RegFindWalk: below the start, then up through the ancestors, then the following hives. */
  method FindWalk(q: Query, hives: seq<KeyTree>, h: nat, path: seq<Text>, start: Option<Text>) returns (r: Option<Entry>)
    requires h < |hives| && Open(hives[h], path).Some?
    ensures Open(SortTree(hives[h]), path).Some? && r == FirstMatch(q, Ahead(SortHives(hives), h, path, start))
  {
    hide SortTree, EntriesFrom, Later, HiveEntries;
    ghost var sorted := SortHives(hives);
    OpenSorted(hives[h], path);
    var t := Open(hives[h], path).value;
    ghost var below, later := EntriesFrom(h, path, SortTree(t), start), Later(h, sorted[h], path);
    FirstMatchConcat(q, below, later);
    FirstMatchConcat(q, below + later, HiveEntries(sorted, h + 1));
    r := FindRecurse(q, h, path, t, start);
    if r.Some? { return; }
    r := Climb(q, h, hives[h], path);
    if r.Some? { return; }
    r := SearchHives(q, hives, h + 1);
  }

  /** The chain of hives after the current one. */
  method SearchHives(q: Query, hives: seq<KeyTree>, first: nat) returns (r: Option<Entry>)
    ensures r == FirstMatch(q, HiveEntries(SortHives(hives), first))
  {
    hide SortTree;
    ghost var sorted := SortHives(hives);
    var h := first;
    while h < |hives|
      invariant first <= h && FirstMatch(q, HiveEntries(sorted, first)) == FirstMatch(q, HiveEntries(sorted, h))
    {
      assert KeyEntries(h, [], sorted[h]) == EntriesFrom(h, [], sorted[h], None);
      FirstMatchConcat(q, KeyEntries(h, [], sorted[h]), HiveEntries(sorted, h + 1));
      r := FindRecurse(q, h, [], hives[h], None);
      if r.Some? { return; }
      h := h + 1;
    }
    return None;
  }

  // ------------------------------------------------- the walk against the enumeration

  /** Names unique up to case among the subkeys and among the values of every key. */
  predicate Unique(t: KeyTree)
    decreases t
  {
    DistinctNames(t.subkeys) && DistinctValues(t.values) && forall s :: s in t.subkeys ==> Unique(s)
  }

  predicate UniqueHives(hives: seq<KeyTree>) {
    forall h :: 0 <= h < |hives| ==> Unique(hives[h])
  }

  /** The position a later search starts from after stopping at an entry. */
  function StartValue(e: Entry): Option<Text> {
    if e.KeyEntry? then None else Some(e.value.name)
  }

  lemma {:induction false} ValuesPastAt(vs: seq<Value>, i: nat)
    requires i < |vs| && DistinctValues(vs)
    ensures ValuesPast(vs, vs[i].name) == vs[i + 1..]
  {
    if i > 0 {
      assert DistinctValues(vs[1..]) by { assert forall a :: 0 <= a < |vs| - 1 ==> vs[1..][a] == vs[a + 1]; }
      ValuesPastAt(vs[1..], i - 1);
      assert vs[1..][i - 1] == vs[i] && vs[1..][i..] == vs[i + 1..];
    }
  }

  lemma {:induction false} KeysPastAt(ts: seq<KeyTree>, i: nat)
    requires i < |ts| && DistinctNames(ts)
    ensures KeysPast(ts, ts[i].name) == ts[i + 1..] && FindChild(ts, ts[i].name) == Some(ts[i])
  {
    if i > 0 {
      assert DistinctNames(ts[1..]) by { assert forall a :: 0 <= a < |ts| - 1 ==> ts[1..][a] == ts[a + 1]; }
      KeysPastAt(ts[1..], i - 1);
      assert ts[1..][i - 1] == ts[i] && ts[1..][i..] == ts[i + 1..];
    }
  }

  lemma {:induction false} ValueEntriesAt(h: nat, path: seq<Text>, vs: seq<Value>, i: nat)
    requires i < |vs|
    ensures ValueEntries(h, path, vs)[i] == ValueEntry(h, path, vs[i])
    ensures ValueEntries(h, path, vs)[i + 1..] == ValueEntries(h, path, vs[i + 1..])
  {
    if i > 0 {
      ValueEntriesAt(h, path, vs[1..], i - 1);
      assert vs[1..][i..] == vs[i + 1..];
      var es := ValueEntries(h, path, vs);
      assert es[1..] == ValueEntries(h, path, vs[1..]);
      assert es[i + 1..] == es[1..][i..];
    }
  }

  lemma {:induction false} OpenChild(root: KeyTree, path: seq<Text>, t: KeyTree, i: nat)
    requires Open(root, path) == Some(t) && i < |t.subkeys| && DistinctNames(t.subkeys)
    ensures var sub := path + [t.subkeys[i].name];
      Open(root, sub) == Some(t.subkeys[i]) && sub[..|sub| - 1] == path && sub[|sub| - 1] == t.subkeys[i].name
  {
    var sub := path + [t.subkeys[i].name];
    assert sub[..|sub| - 1] == path;
    KeysPastAt(t.subkeys, i);
  }

  /** After the subtree of a subkey come its later siblings and what is after the parent. */
  lemma {:induction false} LaterChild(h: nat, root: KeyTree, path: seq<Text>, t: KeyTree, i: nat)
    requires Open(root, path) == Some(t) && i < |t.subkeys| && DistinctNames(t.subkeys)
    ensures var sub := path + [t.subkeys[i].name];
      Open(root, sub).Some? && Later(h, root, sub) == SubkeyEntries(h, path, t.subkeys[i + 1..]) + Later(h, root, path)
  {
    OpenChild(root, path, t, i);
    KeysPastAt(t.subkeys, i);
  }

  lemma {:induction false} DropLeft<T>(a: seq<T>, b: seq<T>, j: nat)
    requires j < |a|
    ensures (a + b)[j] == a[j] && (a + b)[j + 1..] == a[j + 1..] + b
  {
  }

  lemma {:induction false} DropRight<T>(a: seq<T>, b: seq<T>, j: nat)
    requires |a| <= j < |a| + |b|
    ensures (a + b)[j] == b[j - |a|] && (a + b)[j + 1..] == b[j - |a| + 1..]
  {
  }

  /** An entry names a key that opens. */
  ghost predicate Opens(hives: seq<KeyTree>, e: Entry) {
    e.hive < |hives| && Open(hives[e.hive], e.path).Some?
  }

  ghost predicate AheadIs(hives: seq<KeyTree>, e: Entry, rest: seq<Entry>) {
    Opens(hives, e) && Ahead(hives, e.hive, e.path, StartValue(e)) == rest
  }

  /** What the search still visits after the subtree at path. */
  ghost function After(hives: seq<KeyTree>, h: nat, path: seq<Text>): seq<Entry>
    requires h < |hives| && Open(hives[h], path).Some?
  {
    Later(h, hives[h], path) + HiveEntries(hives, h + 1)
  }

  /** From the j-th entry below a key, the search visits the entries after it and then goes on. */
  ghost predicate GoesOnInKey(hives: seq<KeyTree>, h: nat, path: seq<Text>, t: KeyTree, j: nat) {
    && h < |hives| && Open(hives[h], path).Some? && j < |KeyEntries(h, path, t)|
    && var es := KeyEntries(h, path, t); AheadIs(hives, es[j], es[j + 1..] + After(hives, h, path))
  }

  /** The same within the subkeys from the i-th on. */
  ghost predicate GoesOnInSubkeys(hives: seq<KeyTree>, h: nat, path: seq<Text>, t: KeyTree, i: nat, j: nat) {
    && h < |hives| && Open(hives[h], path).Some? && i <= |t.subkeys| && j < |SubkeyEntries(h, path, t.subkeys[i..])|
    && var es := SubkeyEntries(h, path, t.subkeys[i..]); AheadIs(hives, es[j], es[j + 1..] + After(hives, h, path))
  }

  lemma {:induction false} AheadOfValue(hives: seq<KeyTree>, h: nat, path: seq<Text>, t: KeyTree, j: nat)
    requires h < |hives| && Open(hives[h], path) == Some(t) && Unique(t) && j < |t.values|
    ensures GoesOnInKey(hives, h, path, t, j)
  {
    var vs, subs := ValueEntries(h, path, t.values), SubkeyEntries(h, path, t.subkeys);
    ValueEntriesAt(h, path, t.values, j);
    ValuesPastAt(t.values, j);
    DropLeft(vs, subs, j);
    Associate(vs[j + 1..] + subs, Later(h, hives[h], path), HiveEntries(hives, h + 1));
  }

  /** The subkeys from i on: the first, everything below it, the others. */
  lemma {:induction false} SubkeySplit(h: nat, path: seq<Text>, t: KeyTree, i: nat)
    requires i < |t.subkeys|
    ensures var sub := path + [t.subkeys[i].name];
      SubkeyEntries(h, path, t.subkeys[i..]) ==
        [KeyEntry(h, sub)] + (KeyEntries(h, sub, t.subkeys[i]) + SubkeyEntries(h, path, t.subkeys[i + 1..]))
  {
    var sub := path + [t.subkeys[i].name];
    assert t.subkeys[i..][1..] == t.subkeys[i + 1..];
    Associate([KeyEntry(h, sub)], KeyEntries(h, sub, t.subkeys[i]), SubkeyEntries(h, path, t.subkeys[i + 1..]));
  }

  lemma {:induction false} AheadOfKey(hives: seq<KeyTree>, h: nat, path: seq<Text>, t: KeyTree, i: nat)
    requires h < |hives| && Open(hives[h], path) == Some(t) && Unique(t) && i < |t.subkeys|
    ensures GoesOnInSubkeys(hives, h, path, t, i, 0)
  {
    var sub := path + [t.subkeys[i].name];
    OpenChild(hives[h], path, t, i);
    LaterChild(h, hives[h], path, t, i);
    SubkeySplit(h, path, t, i);
    var below, others := KeyEntries(h, sub, t.subkeys[i]), SubkeyEntries(h, path, t.subkeys[i + 1..]);
    var later, tail := Later(h, hives[h], path), HiveEntries(hives, h + 1);
    DropLeft([KeyEntry(h, sub)], below + others, 0);
    Associate(below, others, later);
    Associate(below + others, later, tail);
  }

  /** Inside a subtree: from each of its entries, the search visits the entries after it and then goes on. */
  lemma {:induction false} AheadInKey(hives: seq<KeyTree>, h: nat, path: seq<Text>, t: KeyTree, j: nat)
    requires h < |hives| && Open(hives[h], path) == Some(t) && Unique(t) && j < |KeyEntries(h, path, t)|
    ensures GoesOnInKey(hives, h, path, t, j)
    decreases t, 1, 0
  {
    var n := |t.values|;
    if j < n {
      AheadOfValue(hives, h, path, t, j);
    } else {
      assert t.subkeys[0..] == t.subkeys;
      AheadInSubkeys(hives, h, path, t, 0, j - n);
      DropRight(ValueEntries(h, path, t.values), SubkeyEntries(h, path, t.subkeys), j);
    }
  }

  lemma {:induction false} AheadInSubkeys(hives: seq<KeyTree>, h: nat, path: seq<Text>, t: KeyTree, i: nat, j: nat)
    requires h < |hives| && Open(hives[h], path) == Some(t) && Unique(t) && i <= |t.subkeys|
    requires j < |SubkeyEntries(h, path, t.subkeys[i..])|
    ensures GoesOnInSubkeys(hives, h, path, t, i, j)
    decreases t, 0, |t.subkeys| - i
  {
    hide KeyEntries, Later, HiveEntries, Ahead;
    var s := t.subkeys[i];
    var sub := path + [s.name];
    var below := |KeyEntries(h, sub, s)|;
    if j == 0 {
      AheadOfKey(hives, h, path, t, i);
    } else if j <= below {
      OpenChild(hives[h], path, t, i);
      assert Unique(s);
      AheadInKey(hives, h, sub, s, j - 1);
      AheadBelow(hives, h, path, t, i, j);
    } else {
      SubkeyCount(h, path, t, i);
      AheadInSubkeys(hives, h, path, t, i + 1, j - 1 - below);
      AheadPast(hives, h, path, t, i, j);
    }
  }

  lemma {:induction false} SubkeyCount(h: nat, path: seq<Text>, t: KeyTree, i: nat)
    requires i < |t.subkeys|
    ensures |SubkeyEntries(h, path, t.subkeys[i..])| ==
      1 + |KeyEntries(h, path + [t.subkeys[i].name], t.subkeys[i])| + |SubkeyEntries(h, path, t.subkeys[i + 1..])|
  {
    SubkeySplit(h, path, t, i);
  }

  /** Past the first subkey and everything below it, the others. */
  lemma {:induction false} SubkeyRest(h: nat, path: seq<Text>, t: KeyTree, i: nat, j: nat)
    requires i < |t.subkeys| && j < |SubkeyEntries(h, path, t.subkeys[i..])|
    requires j > |KeyEntries(h, path + [t.subkeys[i].name], t.subkeys[i])|
    ensures var es, others := SubkeyEntries(h, path, t.subkeys[i..]), SubkeyEntries(h, path, t.subkeys[i + 1..]);
      var k := j - 1 - |KeyEntries(h, path + [t.subkeys[i].name], t.subkeys[i])|;
      k < |others| && es[j] == others[k] && es[j + 1..] == others[k + 1..]
  {
    var sub := path + [t.subkeys[i].name];
    var below, others := KeyEntries(h, sub, t.subkeys[i]), SubkeyEntries(h, path, t.subkeys[i + 1..]);
    SubkeySplit(h, path, t, i);
    DropRight([KeyEntry(h, sub)], below + others, j);
    DropRight(below, others, j - 1);
  }

  /** From the later subkeys to the list of siblings they stand in. */
  lemma {:induction false} AheadPast(hives: seq<KeyTree>, h: nat, path: seq<Text>, t: KeyTree, i: nat, j: nat)
    requires i < |t.subkeys| && j < |SubkeyEntries(h, path, t.subkeys[i..])|
    requires var below := |KeyEntries(h, path + [t.subkeys[i].name], t.subkeys[i])|;
      j > below && GoesOnInSubkeys(hives, h, path, t, i + 1, j - 1 - below)
    ensures GoesOnInSubkeys(hives, h, path, t, i, j)
  {
    SubkeyRest(h, path, t, i, j);
  }

  /** From a subkey's subtree to the list of siblings it stands in. */
  lemma {:induction false} AheadBelow(hives: seq<KeyTree>, h: nat, path: seq<Text>, t: KeyTree, i: nat, j: nat)
    requires h < |hives| && Open(hives[h], path) == Some(t) && Unique(t) && i < |t.subkeys| && 0 < j
    requires GoesOnInKey(hives, h, path + [t.subkeys[i].name], t.subkeys[i], j - 1)
    ensures GoesOnInSubkeys(hives, h, path, t, i, j)
  {
    var sub := path + [t.subkeys[i].name];
    var below, others := KeyEntries(h, sub, t.subkeys[i]), SubkeyEntries(h, path, t.subkeys[i + 1..]);
    SubkeySplit(h, path, t, i);
    LaterChild(h, hives[h], path, t, i);
    DropRight([KeyEntry(h, sub)], below + others, j);
    DropLeft(below, others, j - 1);
    Associate(others, Later(h, hives[h], path), HiveEntries(hives, h + 1));
    Associate(below[j..], others, After(hives, h, path));
  }

  /**
   Starting from any entry of the enumeration of all hives, the search visits exactly
   the entries after it, in order.
   */
  lemma {:induction false} AheadIsRest(hives: seq<KeyTree>, h: nat, j: nat)
    requires UniqueHives(hives) && j < |HiveEntries(hives, h)|
    ensures var es := HiveEntries(hives, h); AheadIs(hives, es[j], es[j + 1..])
    decreases |hives| - h
  {
    var first, rest := KeyEntries(h, [], hives[h]), HiveEntries(hives, h + 1);
    if j < |first| {
      AheadInKey(hives, h, [], hives[h], j);
      DropLeft(first, rest, j);
      assert After(hives, h, []) == rest;
    } else {
      AheadIsRest(hives, h + 1, j - |first|);
      DropRight(first, rest, j);
    }
  }

  /** From the root of a hive with no value selected, the search visits that hive and the ones after it. */
  lemma {:induction false} AheadOfHive(hives: seq<KeyTree>, h: nat)
    requires h < |hives|
    ensures Ahead(hives, h, [], None) == HiveEntries(hives, h)
  {
    assert KeyEntries(h, [], hives[h]) + [] == KeyEntries(h, [], hives[h]);
  }

  // ------------------------------------------------------ the enumeration is complete

  /** Each name of the path as the registry spells it. */
  predicate ExactPath(root: KeyTree, path: seq<Text>)
    decreases |path|
  {
    path == [] ||
    (ExactPath(root, path[..|path| - 1]) && Open(root, path).Some? && Open(root, path).value.name == path[|path| - 1])
  }

  lemma {:induction false} SubkeyEnumerated(h: nat, path: seq<Text>, ts: seq<KeyTree>, s: KeyTree)
    requires s in ts
    ensures KeyEntry(h, path + [s.name]) in SubkeyEntries(h, path, ts)
    ensures forall e :: e in KeyEntries(h, path + [s.name], s) ==> e in SubkeyEntries(h, path, ts)
  {
    if ts[0] != s {
      assert s in ts[1..];
      SubkeyEnumerated(h, path, ts[1..], s);
    }
  }

  lemma {:induction false} HiveEnumerated(hives: seq<KeyTree>, from: nat, h: nat)
    requires from <= h < |hives|
    ensures forall e :: e in KeyEntries(h, [], hives[h]) ==> e in HiveEntries(hives, from)
    decreases h - from
  {
    if from < h { HiveEnumerated(hives, from + 1, h); }
  }

  /** Every key reached by its exact path, and everything below it, is in the enumeration. */
  lemma {:induction false} KeyEnumerated(hives: seq<KeyTree>, h: nat, path: seq<Text>)
    requires h < |hives| && ExactPath(hives[h], path) && Open(hives[h], path).Some?
    ensures path != [] ==> KeyEntry(h, path) in HiveEntries(hives, 0)
    ensures forall e :: e in KeyEntries(h, path, Open(hives[h], path).value) ==> e in HiveEntries(hives, 0)
    decreases |path|
  {
    if path == [] {
      HiveEnumerated(hives, 0, h);
    } else {
      var up := path[..|path| - 1];
      KeyEnumerated(hives, h, up);
      var t, s := Open(hives[h], up).value, Open(hives[h], path).value;
      assert path == up + [s.name];
      SubkeyEnumerated(h, up, t.subkeys, s);
      assert forall e :: e in SubkeyEntries(h, up, t.subkeys) ==> e in KeyEntries(h, up, t);
    }
  }

  // -------------------------------------------------------------- whole searches

  /** A position of the search: the root of a hive, or an entry of the enumeration. */
  ghost predicate Position(hives: seq<KeyTree>, h: nat, path: seq<Text>, start: Option<Text>) {
    || (h < |hives| && path == [] && start == None)
    || (exists e :: e in HiveEntries(hives, 0) && e.hive == h && e.path == path && StartValue(e) == start)
  }

  /** From a position, exactly a suffix of the enumeration of all hives is ahead. */
  lemma {:induction false} PositionSuffix(hives: seq<KeyTree>, h: nat, path: seq<Text>, start: Option<Text>) returns (k: nat)
    requires UniqueHives(hives) && Position(hives, h, path, start)
    ensures h < |hives| && Open(hives[h], path).Some? && k <= |HiveEntries(hives, 0)|
    ensures Ahead(hives, h, path, start) == HiveEntries(hives, 0)[k..]
  {
    var all := HiveEntries(hives, 0);
    if h < |hives| && path == [] && start == None {
      AheadOfHive(hives, h);
      k := HiveOffset(hives, 0, h);
    } else {
      var e :| e in all && e.hive == h && e.path == path && StartValue(e) == start;
      var j :| 0 <= j < |all| && all[j] == e;
      AheadIsRest(hives, 0, j);
      k := j + 1;
    }
  }

  lemma {:induction false} HiveOffset(hives: seq<KeyTree>, from: nat, h: nat) returns (k: nat)
    requires from <= h <= |hives|
    ensures k <= |HiveEntries(hives, from)| && HiveEntries(hives, from)[k..] == HiveEntries(hives, h)
    decreases h - from
  {
    k := 0;
    if from < h {
      var first, rest := KeyEntries(from, [], hives[from]), HiveEntries(hives, from + 1);
      var k1 := HiveOffset(hives, from + 1, h);
      k := |first| + k1;
      assert (first + rest)[k..] == rest[k1..];
    }
  }

  ghost function AllMatches(q: Query, es: seq<Entry>): seq<Entry> {
    if es == [] then [] else if Matches(q, es[0]) then [es[0]] + AllMatches(q, es[1..]) else AllMatches(q, es[1..])
  }

  /** The first match and the matches after it. */
  lemma {:induction false} MatchesFrom(q: Query, es: seq<Entry>) returns (i: nat)
    ensures FirstMatch(q, es).None? ==> AllMatches(q, es) == []
    ensures FirstMatch(q, es).Some? ==>
      i < |es| && es[i] == FirstMatch(q, es).value && AllMatches(q, es) == [es[i]] + AllMatches(q, es[i + 1..])
  {
    i := 0;
    if es != [] && !Matches(q, es[0]) {
      i := MatchesFrom(q, es[1..]);
      if FirstMatch(q, es).Some? {
        assert es[1..][i] == es[i + 1] && es[1..][i + 1..] == es[i + 2..];
        i := i + 1;
      }
    }
  }

  /** A search from this position visits exactly the entries of the enumeration from k on. */
  ghost predicate Facing(hives: seq<KeyTree>, h: nat, path: seq<Text>, start: Option<Text>, k: nat) {
    && k <= |HiveEntries(hives, 0)| && h < |hives| && Open(hives[h], path).Some?
    && Ahead(hives, h, path, start) == HiveEntries(hives, 0)[k..]
  }

  lemma {:induction false} MatchesFromSuffix(q: Query, all: seq<Entry>, k: nat) returns (i: nat)
    requires k <= |all| && FirstMatch(q, all[k..]).Some?
    ensures k <= i < |all| && all[i] == FirstMatch(q, all[k..]).value
    ensures AllMatches(q, all[k..]) == [all[i]] + AllMatches(q, all[i + 1..])
  {
    var d := MatchesFrom(q, all[k..]);
    i := k + d;
    assert all[k..][d] == all[i] && all[k..][d + 1..] == all[i + 1..];
  }

  /** Stopping at a hit leaves the matches after it, and faces the entries after it. */
  lemma {:induction false} NextHit(q: Query, hives: seq<KeyTree>, k: nat, hit: Entry) returns (next: nat)
    requires UniqueHives(hives) && k <= |HiveEntries(hives, 0)|
    requires FirstMatch(q, HiveEntries(hives, 0)[k..]) == Some(hit)
    ensures k < next && Facing(hives, hit.hive, hit.path, StartValue(hit), next)
    ensures var all := HiveEntries(hives, 0); AllMatches(q, all[k..]) == [hit] + AllMatches(q, all[next..])
  {
    var i := MatchesFromSuffix(q, HiveEntries(hives, 0), k);
    next := i + 1;
    AheadIsRest(hives, 0, i);
  }

  // -------------------------------------------------- searches of a stored registry

  predicate SortedTree(t: KeyTree)
    decreases t
  {
    Ascending(ValueName, t.values) && Ascending(SubkeyName, t.subkeys) && forall s :: s in t.subkeys ==> SortedTree(s)
  }

  /** Sorting a registry with unique names sorts every level and keeps the names unique. */
  lemma {:induction false} SortTreeSorted(t: KeyTree)
    requires Unique(t)
    ensures SortedTree(SortTree(t)) && Unique(SortTree(t))
    decreases t
  {
    var s := SortTree(t);
    var forest := SortForest(t.subkeys);
    SortAscending(ValueName, t.values);
    SortAscending(SubkeyName, forest);
    AscendingDistinct(ValueName, s.values);
    AscendingDistinct(SubkeyName, s.subkeys);
    forall x | x in s.subkeys ensures SortedTree(x) && Unique(x) {
      assert x in multiset(s.subkeys) && x in multiset(forest) && x in forest;
      var y := SortForestIn(t.subkeys, x);
      SortTreeSorted(y);
    }
  }

  lemma {:induction false} SortedUnique(hives: seq<KeyTree>)
    requires UniqueHives(hives)
    ensures UniqueHives(SortHives(hives))
  {
    forall h | 0 <= h < |hives| ensures Unique(SortTree(hives[h])) { SortTreeSorted(hives[h]); }
  }

  /** Where a search can start does not depend on the order the registry is stored in. */
  lemma {:induction false} SortedPosition(hives: seq<KeyTree>, h: nat, path: seq<Text>, start: Option<Text>)
    ensures Position(SortHives(hives), h, path, start) <==> Position(hives, h, path, start)
  {
    hide HiveEntries;
    SortedHiveEntries(hives, 0);
    var stored, sorted := HiveEntries(hives, 0), HiveEntries(SortHives(hives), 0);
    forall e ensures e in stored <==> e in sorted { assert e in multiset(stored) <==> e in multiset(sorted); }
  }

  lemma {:induction false} MatchCount(q: Query, es: seq<Entry>, e: Entry)
    ensures multiset(AllMatches(q, es))[e] == if Matches(q, e) then multiset(es)[e] else 0
  {
    if es != [] {
      MatchCount(q, es[1..], e);
      assert es == [es[0]] + es[1..];
    }
  }

  /** Every match of the stored registry is a match of the sorted one, and as often. */
  lemma {:induction false} SortedMatches(q: Query, hives: seq<KeyTree>, h: nat)
    ensures multiset(AllMatches(q, HiveEntries(SortHives(hives), h))) == multiset(AllMatches(q, HiveEntries(hives, h)))
  {
    hide HiveEntries, Matches;
    SortedHiveEntries(hives, h);
    var stored, sorted := HiveEntries(hives, h), HiveEntries(SortHives(hives), h);
    forall e ensures multiset(AllMatches(q, sorted))[e] == multiset(AllMatches(q, stored))[e] {
      MatchCount(q, stored, e);
      MatchCount(q, sorted, e);
    }
  }

  /** A search facing the rest of the sorted enumeration starts at a key that opens. */
  lemma {:induction false} FacingOpens(hives: seq<KeyTree>, h: nat, path: seq<Text>, start: Option<Text>, k: nat)
    requires Facing(SortHives(hives), h, path, start, k)
    ensures h < |hives| && Open(hives[h], path).Some?
  {
    OpenSorted(hives[h], path);
  }

  /**
   Find next, pressed until nothing is found: every match after the starting position,
   each exactly once and in the order of the sorted names, however the registry is stored.
   */
  method FindAll(q: Query, hives: seq<KeyTree>, h: nat, path: seq<Text>, start: Option<Text>) returns (hits: seq<Entry>)
    requires UniqueHives(hives) && Position(hives, h, path, start)
    ensures h < |hives| && Open(SortHives(hives)[h], path).Some?
    ensures hits == AllMatches(q, Ahead(SortHives(hives), h, path, start))
    ensures h == 0 && path == [] && start == None ==> multiset(hits) == multiset(AllMatches(q, HiveEntries(hives, 0)))
  {
    hide HiveEntries, Ahead, SortTree, Unique;
    ghost var sorted := SortHives(hives);
    SortedUnique(hives);
    SortedPosition(hives, h, path, start);
    ghost var k := PositionSuffix(sorted, h, path, start);
    if h == 0 && path == [] && start == None {
      AheadOfHive(sorted, 0);
      SortedMatches(q, hives, 0);
    }
    hits := FindRest(q, hives, h, path, start, k);
  }

  method FindRest(q: Query, hives: seq<KeyTree>, h: nat, path: seq<Text>, start: Option<Text>, ghost first: nat)
    returns (hits: seq<Entry>)
    requires UniqueHives(SortHives(hives)) && Facing(SortHives(hives), h, path, start, first)
    ensures hits == AllMatches(q, HiveEntries(SortHives(hives), 0)[first..])
  {
    hide HiveEntries, Ahead, SortTree, Unique;
    ghost var sorted, k := SortHives(hives), first;
    ghost var all := HiveEntries(sorted, 0);
    ghost var total := AllMatches(q, all[k..]);
    var atHive: nat, atPath, atValue := h, path, start;
    hits := [];
    var more := true;
    while more
      invariant more ==> Facing(sorted, atHive, atPath, atValue, k) && total == hits + AllMatches(q, all[k..])
      invariant !more ==> total == hits
      decreases if more then 1 + |all| - k else 0
    {
      FacingOpens(hives, atHive, atPath, atValue, k);
      var r := FindWalk(q, hives, atHive, atPath, atValue);
      if r.None? {
        ghost var _ := MatchesFrom(q, all[k..]);
        more := false;
      } else {
        k := NextHit(q, sorted, k, r.value);
        Associate(hits, [r.value], AllMatches(q, all[k..]));
        hits := hits + [r.value];
        atHive, atPath, atValue := r.value.hive, r.value.path, StartValue(r.value);
      }
    }
  }
}
