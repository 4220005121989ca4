/**
 The command prompt's path resolver: a textual canonical path and a directory extent
 kept in step while the parts of an input path are followed one by one.
 */
module CmdPath {
  import opened Basics
  import opened WideText
  import opened IsoDirectory

  const SLASH: Byte := 47
  const DOT: Chars := [46]
  const DOTDOT: Chars := [46, 46]
  const PATH_MAX: nat := 256

  // ---------------------------------------------------------------- paths as text

  function FirstSlash(t: Chars): (n: nat)
    ensures n <= |t| && SLASH !in t[..n]
    ensures n < |t| ==> t[n] == SLASH
  {
    if t == [] || t[0] == SLASH then 0 else 1 + FirstSlash(t[1..])
  }

  /** The non-empty pieces of a path between slashes. */
  function Components(t: Chars): seq<Chars>
    decreases |t|
  {
    if t == [] then [] else
    var n := FirstSlash(t);
    var rest := if n < |t| then Components(t[n + 1..]) else [];
    if n == 0 then rest else [t[..n]] + rest
  }

  function Rooted(stack: seq<Chars>): Chars {
    if stack == [] then [] else Rooted(stack[..|stack| - 1]) + [SLASH] + stack[|stack| - 1]
  }

  /** The canonical text of a stack of directory names. */
  function Join(stack: seq<Chars>): Chars {
    if stack == [] then [SLASH] else Rooted(stack)
  }

  predicate Piece(c: Chars) {
    c != [] && SLASH !in c && Upper(c) == c
  }

  /** A directory name as it may stand in a canonical path. */
  predicate Proper(c: Chars) {
    Piece(c) && c != DOT && c != DOTDOT
  }

  predicate Pieces(cs: seq<Chars>) {
    forall c :: c in cs ==> Piece(c)
  }

  predicate ProperStack(cs: seq<Chars>) {
    forall c :: c in cs ==> Proper(c)
  }

  /** Absolute, upper-case, without empty, "." or ".." components. */
  predicate Canonical(p: Chars) {
    ProperStack(Components(p)) && p == Join(Components(p))
  }

  function Enter(stack: seq<Chars>, c: Chars): seq<Chars> {
    if c == DOT then stack
    else if c == DOTDOT then (if stack == [] then [] else stack[..|stack| - 1])
    else stack + [c]
  }

  /** Stack normalisation of a list of path components. */
  function Normalise(stack: seq<Chars>, parts: seq<Chars>): seq<Chars>
    decreases |parts|
  {
    if parts == [] then stack else Normalise(Enter(stack, parts[0]), parts[1..])
  }

  // ----------------------------------------------------------------- walking the disc

  /** One directory entered by name. */
  function Descend(d: Disc, dir: Extent, name: Chars): Option<Extent> {
    var r := Lookup(d, dir, name);
    if r.Some? && r.value.IsDirectory() then Some(r.value.extent) else None
  }

  function Walk(d: Disc, dir: Extent, names: seq<Chars>): Option<Extent>
    decreases |names|
  {
    if names == [] then Some(dir) else
    var next := Descend(d, dir, names[0]);
    if next.None? then None else Walk(d, next.value, names[1..])
  }

  /** The root record of the Primary Volume Descriptor (section 8.4 of ECMA-119). */
  function Root(d: Disc): Option<Extent> {
    var s := Read(d, 16);
    if s.None? then None else Some(Extent(Dword(d, s.value, 156 + 2), Dword(d, s.value, 156 + 10)))
  }

  // -------------------------------------------------- what resolving a path means

  datatype Resolved = Resolved(extent: Extent, path: Chars)

  function Take(t: Chars, n: nat): Chars {
    if |t| <= n then t else t[..n]
  }

  predicate Absolute(input: Chars) {
    input != [] && input[0] == SLASH
  }

  /** The upper-case copy of the input that is cut into parts. */
  function Working(input: Chars): Chars {
    Upper(Take(if Absolute(input) then input[1..] else input, PATH_MAX - 1))
  }

  function Base(cwd: Chars, input: Chars): seq<Chars> {
    if Absolute(input) then [] else Components(cwd)
  }

  /** Every directory passed through on the way exists. */
  ghost predicate Passable(d: Disc, root: Extent, base: seq<Chars>, parts: seq<Chars>) {
    forall i :: 0 <= i <= |parts| ==> Walk(d, root, Normalise(base, parts[..i])).Some?
  }

  ghost function ResolveTo(d: Disc, cwd: Chars, input: Chars): Option<Resolved> {
    var root := Root(d);
    var base, parts := Base(cwd, input), Components(Working(input));
    if input == [] || root.None? || !Passable(d, root.value, base, parts) then None else
    var stack := Normalise(base, parts);
    assert parts[..|parts|] == parts;
    Some(Resolved(Walk(d, root.value, stack).value, Join(stack)))
  }

  // --------------------------------------------------------------- facts about paths

  lemma {:induction false} FirstSlashAt(a: Chars, b: Chars)
    requires SLASH !in a
    ensures FirstSlash(a + [SLASH] + b) == |a|
  {
    if a != [] {
      assert (a + [SLASH] + b)[1..] == a[1..] + [SLASH] + b;
      FirstSlashAt(a[1..], b);
    }
  }

  lemma {:induction false} NoSlash(a: Chars)
    requires SLASH !in a
    ensures FirstSlash(a) == |a| && Components(a) == Single(a)
  {
    if a != [] {
      NoSlash(a[1..]);
      assert a[..|a|] == a;
    }
  }

  function Single(c: Chars): seq<Chars> {
    if c == [] then [] else [c]
  }

  lemma {:induction false} ComponentsFirst(front: Chars, rest: Chars)
    requires SLASH !in front
    ensures Components(front + [SLASH] + rest) == Single(front) + Components(rest)
  {
    var t := front + [SLASH] + rest;
    FirstSlashAt(front, rest);
    assert t[|front| + 1..] == rest && t[..|front|] == front;
  }

  /** A slash separates the components on its left from those on its right. */
  lemma {:induction false} ComponentsSlash(a: Chars, b: Chars)
    ensures Components(a + [SLASH] + b) == Components(a) + Components(b)
    decreases |a|
  {
    var n := FirstSlash(a);
    if n == |a| {
      assert a[..n] == a;
      NoSlash(a);
      ComponentsFirst(a, b);
    } else {
      var front, back := a[..n], a[n + 1..];
      assert a == front + [SLASH] + back;
      ComponentsFirst(front, back);
      JoinedTwice(front, back, b);
      ComponentsFirst(front, back + [SLASH] + b);
      ComponentsSlash(back, b);
      Associate(Single(front), Components(back), Components(b));
    }
  }

  lemma {:induction false} InitLast(stack: seq<Chars>)
    requires stack != []
    ensures stack == stack[..|stack| - 1] + [stack[|stack| - 1]]
  {
  }

  lemma {:induction false} JoinedTwice(a: Chars, b: Chars, c: Chars)
    ensures a + [SLASH] + b + [SLASH] + c == a + [SLASH] + (b + [SLASH] + c)
  {
  }

  lemma {:induction false} ComponentsLeadingSlash(p: Chars)
    requires Absolute(p)
    ensures Components(p) == Components(p[1..])
  {
    assert p == [] + [SLASH] + p[1..];
    ComponentsSlash([], p[1..]);
  }

  /** The components of a canonical text are the stack it was made from. */
  lemma {:induction false} ComponentsJoin(stack: seq<Chars>)
    requires Pieces(stack)
    ensures Components(Join(stack)) == stack
  {
    if stack == [] {
      ComponentsLeadingSlash([SLASH]);
    } else {
      ComponentsRooted(stack);
    }
  }

  lemma {:induction false} ComponentsRooted(stack: seq<Chars>)
    requires Pieces(stack)
    ensures Components(Rooted(stack)) == stack
  {
    if stack != [] {
      var init, last := stack[..|stack| - 1], stack[|stack| - 1];
      InitLast(stack);
      ComponentsRooted(init);
      assert last in stack;
      NoSlash(last);
      ComponentsSlash(Rooted(init), last);
    }
  }

  lemma {:induction false} JoinCanonical(stack: seq<Chars>)
    requires ProperStack(stack)
    ensures Canonical(Join(stack)) && Absolute(Join(stack))
  {
    ComponentsJoin(stack);
    RootedAbsolute(stack);
  }

  lemma {:induction false} RootedAbsolute(stack: seq<Chars>)
    ensures stack != [] ==> Absolute(Rooted(stack))
  {
    if |stack| > 1 { RootedAbsolute(stack[..|stack| - 1]); }
  }

  lemma {:induction false} ComponentsPieces(t: Chars)
    requires Upper(t) == t
    ensures Pieces(Components(t))
    decreases |t|
  {
    if t != [] {
      var n := FirstSlash(t);
      UpperSlice(t, 0, n);
      if n < |t| {
        UpperSlice(t, n + 1, |t|);
        ComponentsPieces(t[n + 1..]);
      }
    }
  }

  lemma {:induction false} UpperSlice(t: Chars, i: nat, j: nat)
    requires i <= j <= |t| && Upper(t) == t
    ensures Upper(t[i..j]) == t[i..j]
  {
    forall k | 0 <= k < j - i ensures Upper(t[i..j])[k] == t[i..j][k] { assert Upper(t)[i + k] == t[i + k]; }
  }

  lemma {:induction false} UpperUpper(t: Chars)
    ensures Upper(Upper(t)) == Upper(t)
  {
  }

  lemma {:induction false} UpperRooted(stack: seq<Chars>)
    requires ProperStack(stack)
    ensures Upper(Rooted(stack)) == Rooted(stack)
  {
    if stack != [] {
      var init, last := stack[..|stack| - 1], stack[|stack| - 1];
      UpperRooted(init);
      assert last in stack;
      assert Upper(Rooted(init) + [SLASH] + last) == Upper(Rooted(init)) + [SLASH] + Upper(last);
    }
  }

  lemma {:induction false} CanonicalUpper(p: Chars)
    requires Canonical(p)
    ensures Upper(p) == p && Absolute(p)
  {
    UpperRooted(Components(p));
    JoinCanonical(Components(p));
  }

  lemma {:induction false} WorkingPieces(input: Chars)
    ensures Pieces(Components(Working(input)))
  {
    ComponentsPieces(Working(input));
  }

  lemma {:induction false} NormaliseProper(stack: seq<Chars>, parts: seq<Chars>)
    requires ProperStack(stack) && Pieces(parts)
    ensures ProperStack(Normalise(stack, parts))
    decreases |parts|
  {
    if parts != [] {
      assert parts[0] in parts;
      NormaliseProper(Enter(stack, parts[0]), parts[1..]);
    }
  }

  lemma {:induction false} NormaliseConcat(stack: seq<Chars>, a: seq<Chars>, b: seq<Chars>)
    ensures Normalise(stack, a + b) == Normalise(Normalise(stack, a), b)
    decreases |a|
  {
    if a == [] {
      assert a + b == b;
    } else {
      assert (a + b)[1..] == a[1..] + b;
      NormaliseConcat(Enter(stack, a[0]), a[1..], b);
    }
  }

  lemma {:induction false} NormaliseOne(stack: seq<Chars>, parts: seq<Chars>, k: nat)
    requires k < |parts|
    ensures Normalise(stack, parts[..k + 1]) == Enter(Normalise(stack, parts[..k]), parts[k])
  {
    assert parts[..k + 1] == parts[..k] + [parts[k]];
    NormaliseConcat(stack, parts[..k], [parts[k]]);
  }

  /** Proper names are only pushed. */
  lemma {:induction false} NormaliseNames(stack: seq<Chars>, parts: seq<Chars>)
    requires ProperStack(parts)
    ensures Normalise(stack, parts) == stack + parts
    decreases |parts|
  {
    if parts == [] {
      assert stack + parts == stack;
    } else {
      assert parts[0] in parts;
      NormaliseNames(Enter(stack, parts[0]), parts[1..]);
      assert stack + [parts[0]] + parts[1..] == stack + parts;
    }
  }

  lemma {:induction false} WalkConcat(d: Disc, dir: Extent, a: seq<Chars>, b: seq<Chars>)
    ensures Walk(d, dir, a + b) == if Walk(d, dir, a).None? then None else Walk(d, Walk(d, dir, a).value, b)
    decreases |a|
  {
    if a == [] {
      assert a + b == b;
    } else {
      assert (a + b)[1..] == a[1..] + b;
      if Descend(d, dir, a[0]).Some? { WalkConcat(d, Descend(d, dir, a[0]).value, a[1..], b); }
    }
  }

  lemma {:induction false} WalkPrefix(d: Disc, dir: Extent, names: seq<Chars>, k: nat)
    requires k <= |names| && Walk(d, dir, names).Some?
    ensures Walk(d, dir, names[..k]).Some?
  {
    assert names == names[..k] + names[k..];
    WalkConcat(d, dir, names[..k], names[k..]);
  }

  lemma {:induction false} WalkPush(d: Disc, dir: Extent, names: seq<Chars>, c: Chars)
    requires Walk(d, dir, names).Some?
    ensures Walk(d, dir, names + [c]) == Descend(d, Walk(d, dir, names).value, c)
  {
    WalkConcat(d, dir, names, [c]);
    var at := Walk(d, dir, names).value;
    var next := Descend(d, at, c);
    if next.Some? { assert Walk(d, next.value, [c][1..]) == next; }
  }

  // ------------------------------------------------------------------- the resolver

  /** Cuts a path at its first slash: the part before it and, if there was one, what follows. */
  method CutPart(t: Chars) returns (part: Chars, next: Option<Chars>)
    ensures var n := FirstSlash(t); part == t[..n] && next == if n < |t| then Some(t[n + 1..]) else None
  {
    var i := 0;
    while i < |t| && t[i] != SLASH
      invariant 0 <= i <= |t| && FirstSlash(t) == i + FirstSlash(t[i..])
    {
      i := i + 1;
    }
    part := t[..i];
    next := if i < |t| then Some(t[i + 1..]) else None;
  }

  function Rest(next: Option<Chars>): Chars {
    if next.Some? then next.value else []
  }

  /** The replay loop: enters the components of a path one after the other. */
  method Replay(d: Disc, from: Extent, path: Chars) returns (r: Option<Extent>)
    ensures r == Walk(d, from, Components(path))
  {
    var dir, part := from, path;
    hide Walk, Components, Lookup;
    while part != []
      invariant Walk(d, from, Components(path)) == Walk(d, dir, Components(part))
      decreases |part|
    {
      var name, next := CutPart(part);
      WalkPart(d, dir, part);
      if name != [] {
        var e := FindEntry(d, dir, name);
        if e.None? || !e.value.IsDirectory() { return None; }
        dir := e.value.extent;
      }
      part := Rest(next);
    }
    WalkNowhere(d, dir);
    return Some(dir);
  }

  lemma {:induction false} NoComponents()
    ensures Components([]) == []
  {
  }

  lemma {:induction false} WalkNowhere(d: Disc, dir: Extent)
    ensures Walk(d, dir, Components([])) == Some(dir)
  {
  }

  /** One part of a path: nothing for an empty one, otherwise a directory to enter. */
  lemma {:induction false} WalkPart(d: Disc, dir: Extent, part: Chars)
    requires part != []
    ensures var n := FirstSlash(part); var rest := if n < |part| then part[n + 1..] else [];
      Walk(d, dir, Components(part)) ==
        if n == 0 then Walk(d, dir, Components(rest))
        else var e := Descend(d, dir, part[..n]); if e.None? then None else Walk(d, e.value, Components(rest))
  {
    hide FirstSlash, Components, Descend;
    ComponentsCut(part);
    NoComponents();
    var n := FirstSlash(part);
    var rest := if n < |part| then part[n + 1..] else [];
    assert [] + Components(rest) == Components(rest);
    if n > 0 { assert Components(part)[0] == part[..n] && Components(part)[1..] == Components(rest); }
  }

  /** The scan for the last slash, the leading one not counted. */
  method LastSlash(t: Chars) returns (last: nat)
    requires t != []
    ensures last < |t| && (last > 0 ==> t[last] == SLASH)
    ensures forall k :: last < k < |t| ==> t[k] != SLASH
  {
    last := 0;
    for i := 0 to |t|
      invariant last < |t| && last <= i && (last > 0 ==> t[last] == SLASH)
      invariant forall k :: last < k < i ==> t[k] != SLASH
    {
      if t[i] == SLASH && i > 0 { last := i; }
    }
  }

  /** Cutting the canonical text at its last slash pops the stack. */
  method PopPath(canonical: Chars, ghost stack: seq<Chars>) returns (r: Chars)
    requires ProperStack(stack) && canonical == Join(stack)
    ensures r == if stack == [] then [SLASH] else Join(stack[..|stack| - 1])
  {
    JoinCanonical(stack);
    r := canonical;
    if |canonical| > 1 {
      var last := LastSlash(canonical);
      LastSlashIs(stack, last);
      r := canonical[..last];
      if r == [] { r := [SLASH]; }
    } else if stack != [] {
      LongJoin(stack);
    }
  }

  lemma {:induction false} LongJoin(stack: seq<Chars>)
    requires ProperStack(stack)
    ensures stack != [] ==> |Join(stack)| > 1
  {
    if stack != [] { assert stack[|stack| - 1] in stack; }
  }

  lemma {:induction false} LastSlashIs(stack: seq<Chars>, last: nat)
    requires ProperStack(stack) && |Join(stack)| > 1 && last < |Join(stack)|
    requires last > 0 ==> Join(stack)[last] == SLASH
    requires forall k :: last < k < |Join(stack)| ==> Join(stack)[k] != SLASH
    ensures stack != [] && Join(stack)[..last] == Rooted(stack[..|stack| - 1])
  {
    var init, name := Rooted(stack[..|stack| - 1]), stack[|stack| - 1];
    var t := init + [SLASH] + name;
    assert name in stack;
    assert t[|init|] == SLASH;
    forall k | |init| < k < |t| ensures t[k] != SLASH { assert t[k] == name[k - |init| - 1] && t[k] in name; }
    assert t[..|init|] == init;
  }

  /** Adding a name to the canonical text pushes it. */
  function PushPath(canonical: Chars, part: Chars): Chars
    requires canonical != []
  {
    (if canonical[|canonical| - 1] != SLASH then canonical + [SLASH] else canonical) + part
  }

  lemma {:induction false} PushPathIs(stack: seq<Chars>, part: Chars)
    requires ProperStack(stack)
    ensures Join(stack) != [] && PushPath(Join(stack), part) == Join(stack + [part])
  {
    assert (stack + [part])[..|stack|] == stack;
    assert Join(stack + [part]) == Rooted(stack) + [SLASH] + part;
    if stack != [] {
      var name := stack[|stack| - 1];
      assert name in stack;
      assert Join(stack)[|Join(stack)| - 1] == name[|name| - 1] && name[|name| - 1] in name;
    }
  }

  /** One part of the input: stay, pop and walk again from the root, or enter a directory. */
  method Follow(d: Disc, root: Extent, dir: Extent, canonical: Chars, part: Chars, ghost stack: seq<Chars>)
    returns (r: Option<Resolved>)
    requires ProperStack(stack) && canonical == Join(stack) && Walk(d, root, stack) == Some(dir) && Piece(part)
    ensures var s := Enter(stack, part);
      r == if Walk(d, root, s).None? then None else Some(Resolved(Walk(d, root, s).value, Join(s)))
    ensures part == DOT ==> r == Some(Resolved(dir, canonical))
    ensures part == DOTDOT && stack == [] ==> r == Some(Resolved(root, [SLASH]))
    ensures part == DOTDOT && stack != [] ==>
      r.Some? && r.value.path == Join(stack[..|stack| - 1]) && Walk(d, root, stack[..|stack| - 1]) == Some(r.value.extent)
  {
    if part == DOT {
      r := Some(Resolved(dir, canonical));
    } else if part == DOTDOT {
      var popped := PopPath(canonical, stack);
      if stack != [] { WalkPrefix(d, root, stack, |stack| - 1); }
      ghost var s := Enter(stack, DOTDOT);
      JoinCanonical(s);
      LongJoin(s);
      ComponentsJoin(s);
      ComponentsLeadingSlash(popped);
      if |popped| > 1 {
        var again := Replay(d, root, popped[1..]);
        if again.None? { return None; }
        r := Some(Resolved(again.value, popped));
      } else {
        r := Some(Resolved(root, popped));
      }
    } else {
      var e := FindEntry(d, dir, part);
      WalkPush(d, root, stack, part);
      if e.None? || !e.value.IsDirectory() { return None; }
      PushPathIs(stack, part);
      r := Some(Resolved(e.value.extent, PushPath(canonical, part)));
    }
  }

  /** k parts have been followed: every directory on the way exists, and text and extent are in step. */
  ghost predicate Followed(d: Disc, root: Extent, base: seq<Chars>, parts: seq<Chars>, k: nat, at: Resolved) {
    && k <= |parts|
    && (forall i :: 0 <= i <= k ==> Walk(d, root, Normalise(base, parts[..i])).Some?)
    && var now := Normalise(base, parts[..k]);
       ProperStack(now) && at.path == Join(now) && Walk(d, root, now) == Some(at.extent)
  }

  lemma {:induction false} ComponentsCut(t: Chars)
    ensures var n := FirstSlash(t);
      Components(t) == Single(t[..n]) + if n < |t| then Components(t[n + 1..]) else []
  {
    var n := FirstSlash(t);
    if n < |t| {
      assert t == t[..n] + [SLASH] + t[n + 1..];
      ComponentsFirst(t[..n], t[n + 1..]);
    } else {
      assert t[..n] == t;
      NoSlash(t);
      assert Single(t) + [] == Single(t);
    }
  }

  /** The next part of the input. */
  method FollowNext(d: Disc, root: Extent, at: Resolved, part: Chars, ghost base: seq<Chars>, ghost parts: seq<Chars>, ghost k: nat)
    returns (r: Option<Resolved>)
    requires ProperStack(base) && Pieces(parts) && Followed(d, root, base, parts, k, at) && k < |parts| && part == parts[k]
    ensures r.None? ==> !Passable(d, root, base, parts)
    ensures r.Some? ==> Followed(d, root, base, parts, k + 1, r.value)
  {
    ghost var now := Normalise(base, parts[..k]);
    assert part in parts;
    NormaliseOne(base, parts, k);
    NormaliseProper(base, parts[..k + 1]);
    r := Follow(d, root, at.extent, at.path, part, now);
    if r.None? { assert Walk(d, root, Normalise(base, parts[..k + 1])).None?; }
  }

  lemma {:induction false} FollowNone(d: Disc, root: Extent, from: Resolved, base: seq<Chars>, parts: seq<Chars>)
    requires ProperStack(base) && from.path == Join(base) && Walk(d, root, base) == Some(from.extent)
    ensures Followed(d, root, base, parts, 0, from)
  {
    hide Walk;
    assert parts[..0] == [];
  }

  /** The main loop over the parts of the input. */
  method FollowAll(d: Disc, root: Extent, from: Resolved, working: Chars, ghost base: seq<Chars>)
    returns (r: Option<Resolved>)
    requires ProperStack(base) && from.path == Join(base) && Walk(d, root, base) == Some(from.extent)
    requires Upper(working) == working
    ensures var parts := Components(working);
      if r.None? then !Passable(d, root, base, parts) else Followed(d, root, base, parts, |parts|, r.value)
  {
    hide Components, Walk, Normalise, Followed, Passable, Upper;
    ghost var parts := Components(working);
    ComponentsPieces(working);
    NoComponents();
    var at, rest := from, working;
    ghost var k := 0;
    FollowNone(d, root, from, base, parts);
    assert parts[0..] == parts;
    while rest != []
      invariant k <= |parts| && Components(rest) == parts[k..] && Followed(d, root, base, parts, k, at)
      decreases |rest|
    {
      ComponentsCut(rest);
      var part, next := CutPart(rest);
      rest := Rest(next);
      if part != [] {
        assert parts[k..][0] == parts[k] && parts[k..][1..] == parts[k + 1..];
        assert ([part] + Components(rest))[1..] == Components(rest);
        var step := FollowNext(d, root, at, part, base, parts, k);
        if step.None? { return None; }
        at := step.value;
        k := k + 1;
      }
    }
    r := Some(at);
  }

  /** resolve_directory_path */
  method ResolveDirectory(d: Disc, cwd: Chars, input: Chars) returns (r: Option<Resolved>)
    requires Canonical(cwd)
    ensures r == ResolveTo(d, cwd, input)
  {
    var root := Root(d);
    if input == [] || root.None? { return None; }
    var absolute := input[0] == SLASH;
    var canonical := if absolute then [SLASH] else cwd;
    var dir := root.value;
    ghost var base, parts := Base(cwd, input), Components(Working(input));
    assert parts[..0] == [];
    CanonicalUpper(cwd);
    if !absolute && |cwd| > 1 {
      ComponentsLeadingSlash(cwd);
      var w := Replay(d, root.value, cwd[1..]);
      if w.None? {
        assert Walk(d, root.value, Normalise(base, parts[..0])).None?;
        return None;
      }
      dir := w.value;
    }
    LongJoin(base);
    assert canonical == Join(base) && Walk(d, root.value, base) == Some(dir);
    UpperUpper(Take(if absolute then input[1..] else input, PATH_MAX - 1));
    r := FollowAll(d, root.value, Resolved(dir, canonical), Working(input), base);
    assert parts[..|parts|] == parts;
  }

  // ---------------------------------------------------------- what the results satisfy

  /** A resolved path is canonical, and its extent is the one reached by walking it from the root. */
  lemma {:induction false} ResolvedInStep(d: Disc, cwd: Chars, input: Chars)
    requires Canonical(cwd) && ResolveTo(d, cwd, input).Some?
    ensures var r := ResolveTo(d, cwd, input).value;
      && Canonical(r.path) && Absolute(r.path) && Upper(r.path) == r.path
      && Components(r.path) == Normalise(Base(cwd, input), Components(Working(input)))
      && Walk(d, Root(d).value, Components(r.path)) == Some(r.extent)
  {
    var base, parts := Base(cwd, input), Components(Working(input));
    WorkingPieces(input);
    NormaliseProper(base, parts);
    var stack := Normalise(base, parts);
    JoinCanonical(stack);
    ComponentsJoin(stack);
    CanonicalUpper(Join(stack));
    assert parts[..|parts|] == parts;
  }

  /** A canonical path that fits the buffer resolves to itself, from any directory, iff its directories exist. */
  lemma {:induction false} CanonicalResolves(d: Disc, cwd: Chars, path: Chars)
    requires Canonical(path) && |path| <= PATH_MAX && Root(d).Some?
    ensures var w := Walk(d, Root(d).value, Components(path));
      ResolveTo(d, cwd, path) == if w.None? then None else Some(Resolved(w.value, path))
  {
    var root, names := Root(d).value, Components(path);
    CanonicalUpper(path);
    UpperSlice(path, 1, |path|);
    ComponentsLeadingSlash(path);
    assert Working(path) == path[1..];
    hide Components, Walk, Normalise, Passable, Upper, Working;
    NamesNormal(names);
    NamesPassable(d, root, names);
  }

  lemma {:induction false} NamesNormal(names: seq<Chars>)
    requires ProperStack(names)
    ensures Normalise([], names) == names
  {
    NormaliseNames([], names);
    assert [] + names == names;
  }

  /** Names that need no normalising can be followed exactly when they lead somewhere. */
  lemma {:induction false} NamesPassable(d: Disc, root: Extent, names: seq<Chars>)
    requires ProperStack(names)
    ensures Passable(d, root, [], names) <==> Walk(d, root, names).Some?
  {
    hide Walk, Normalise;
    assert names[..|names|] == names;
    forall i | 0 <= i <= |names| ensures Normalise([], names[..i]) == names[..i] { NamesNormal(names[..i]); }
    if Walk(d, root, names).Some? {
      forall i | 0 <= i <= |names| ensures Walk(d, root, Normalise([], names[..i])).Some? { WalkPrefix(d, root, names, i); }
    }
  }

  /** Following a then b is following a, then b from there. */
  lemma {:induction false} PassableConcat(d: Disc, root: Extent, base: seq<Chars>, a: seq<Chars>, b: seq<Chars>)
    ensures Passable(d, root, base, a + b) <==> Passable(d, root, base, a) && Passable(d, root, Normalise(base, a), b)
  {
    forall i | 0 <= i <= |a| ensures (a + b)[..i] == a[..i] {
    }
    forall i | 0 <= i <= |b| ensures Normalise(base, (a + b)[..|a| + i]) == Normalise(Normalise(base, a), b[..i]) {
      assert (a + b)[..|a| + i] == a + b[..i];
      NormaliseConcat(base, a, b[..i]);
    }
    if Passable(d, root, base, a) && Passable(d, root, Normalise(base, a), b) {
      forall i | 0 <= i <= |a + b| ensures Walk(d, root, Normalise(base, (a + b)[..i])).Some? {
        if i > |a| {
          var j := i - |a|;
          assert Normalise(base, (a + b)[..|a| + j]) == Normalise(Normalise(base, a), b[..j]);
        } else {
          assert (a + b)[..i] == a[..i];
        }
      }
    }
    if Passable(d, root, base, a + b) {
      forall i | 0 <= i <= |a| ensures Walk(d, root, Normalise(base, a[..i])).Some? { assert (a + b)[..i] == a[..i]; }
      forall i | 0 <= i <= |b| ensures Walk(d, root, Normalise(Normalise(base, a), b[..i])).Some? {
        assert Normalise(base, (a + b)[..|a| + i]) == Normalise(Normalise(base, a), b[..i]);
      }
    }
  }

  /** Changing to a/b is changing to a and then to b. */
  lemma {:induction false} ResolveInTwo(d: Disc, cwd: Chars, a: Chars, b: Chars)
    requires Canonical(cwd) && a != [] && b != [] && !Absolute(b) && |a| + 1 + |b| < PATH_MAX
    ensures ResolveTo(d, cwd, a + [SLASH] + b) ==
      if ResolveTo(d, cwd, a).None? then None else ResolveTo(d, ResolveTo(d, cwd, a).value.path, b)
  {
    hide Components, Normalise, Passable, Walk, Join;
    var t := a + [SLASH] + b;
    assert Absolute(t) <==> Absolute(a);
    var wa, wb := Working(a), Working(b);
    assert Working(t) == wa + [SLASH] + wb;
    ComponentsSlash(wa, wb);
    var base, pa, pb := Base(cwd, a), Components(wa), Components(wb);
    NormaliseConcat(base, pa, pb);
    if Root(d).Some? {
      PassableConcat(d, Root(d).value, base, pa, pb);
      if ResolveTo(d, cwd, a).Some? { ResolvedInStep(d, cwd, a); }
    }
  }

  // ------------------------------------------------------------------- whole sessions

  /** The working directory after one CD command. */
  ghost function ChangeTo(d: Disc, cwd: Chars, input: Chars): Chars {
    var r := ResolveTo(d, cwd, input);
    if r.Some? then r.value.path else cwd
  }

  ghost function Session(d: Disc, cwd: Chars, inputs: seq<Chars>): Chars
    decreases |inputs|
  {
    if inputs == [] then cwd else Session(d, ChangeTo(d, cwd, inputs[0]), inputs[1..])
  }

  /** The working directory is canonical and exists. */
  ghost predicate Settled(d: Disc, cwd: Chars) {
    Canonical(cwd) && Root(d).Some? && Walk(d, Root(d).value, Components(cwd)).Some?
  }

  lemma {:induction false} SessionSettled(d: Disc, cwd: Chars, inputs: seq<Chars>)
    requires Settled(d, cwd)
    ensures Settled(d, Session(d, cwd, inputs))
    decreases |inputs|
  {
    if inputs != [] {
      if ResolveTo(d, cwd, inputs[0]).Some? { ResolvedInStep(d, cwd, inputs[0]); }
      SessionSettled(d, ChangeTo(d, cwd, inputs[0]), inputs[1..]);
    }
  }

  /**
   After any run of CD commands from the root of a readable disc, resolving the working
   directory again succeeds, returns the same path, and reaches the walked extent.
   */
  lemma {:induction false} SessionResolves(d: Disc, inputs: seq<Chars>, from: Chars)
    requires Root(d).Some?
    ensures var cwd := Session(d, [SLASH], inputs);
      && Canonical(cwd) && Walk(d, Root(d).value, Components(cwd)).Some?
      && (|cwd| <= PATH_MAX ==>
           ResolveTo(d, from, cwd) == Some(Resolved(Walk(d, Root(d).value, Components(cwd)).value, cwd)))
  {
    JoinCanonical([]);
    ComponentsJoin([]);
    SessionSettled(d, [SLASH], inputs);
    var cwd := Session(d, [SLASH], inputs);
    if |cwd| <= PATH_MAX { CanonicalResolves(d, from, cwd); }
  }
}
