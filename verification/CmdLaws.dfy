/**
 What the parts of a path do: "." stays, ".." goes to the directory above, a name goes to
 the directory of that name, said of whole resolutions and of the texts they return.
 */
module CmdLaws {
  import opened Basics
  import opened WideText
  import opened IsoDirectory
  import opened CmdPath

  /** The directory that is reached from the root through these names, if the disc has it. */
  ghost function Directory(d: Disc, names: seq<Chars>): Option<Resolved> {
    if Root(d).None? || Walk(d, Root(d).value, names).None? then None
    else Some(Resolved(Walk(d, Root(d).value, names).value, Join(names)))
  }

  // ------------------------------------------------------------- the texts and the disc

  /** The canonical text: a slash before every name, and a single slash for the root. */
  lemma {:induction false} JoinText(names: seq<Chars>, c: Chars)
    ensures Join([]) == [SLASH] && Join([c]) == [SLASH] + c
    ensures names != [] ==> Join(names + [c]) == Join(names) + [SLASH] + c
  {
    assert (names + [c])[..|names|] == names;
    var one := [c];
    assert one[..0] == [] && Rooted(one) == [] + [SLASH] + c;
  }

  /** "/A/B" is the text of A and B, and of nothing else. */
  lemma {:induction false} JoinExample()
    ensures Join([[65], [66]]) == [47, 65, 47, 66] && Components([47, 65, 47, 66]) == [[65], [66]]
  {
    JoinText([[65]], [66]);
    JoinText([], [65]);
    assert [[65]] + [[66]] == [[65], [66]];
    assert Upper([65]) == [65] && Upper([66]) == [66];
    ComponentsJoin([[65], [66]]);
  }

  /** A directory is entered exactly through a record of its name with the directory bit. */
  lemma {:induction false} DirectoryEntered(d: Disc, names: seq<Chars>, c: Chars, e: Extent)
    requires Root(d).Some?
    ensures Directory(d, []) == Some(Resolved(Root(d).value, [SLASH]))
    ensures Directory(d, names + [c]) == Some(Resolved(e, Join(names + [c]))) <==>
      && Directory(d, names).Some?
      && var r := Lookup(d, Directory(d, names).value.extent, c);
         r.Some? && r.value.extent == e && (r.value.flags / 2) % 2 == 1
  {
    hide Lookup, Join;
    var root := Root(d).value;
    assert Join([]) == [SLASH] by { JoinText([], c); }
    WalkConcat(d, root, names, [c]);
    if Walk(d, root, names).Some? { WalkPush(d, root, names, c); }
  }

  /** The root of a disc whose volume descriptor names a sector and a size. */
  lemma {:induction false} RootWritten(d: Disc, lba: nat, size: nat)
    requires lba < UINT32 && size < UINT32 && 16 in d.sectors
    requires d.sectors[16][158..162] == Little(lba) && d.sectors[16][166..170] == Little(size)
    ensures Root(d) == Some(Extent(lba, size))
  {
    var s := d.sectors[16];
    hide Dword, Little;
    DwordLittle(d, s, 158, lba);
    DwordLittle(d, s, 166, size);
  }

  // ------------------------------------------------------------------- one part

  /** An input that is a single part. */
  ghost predicate OnePart(input: Chars) {
    input != [] && SLASH !in input && |input| < PATH_MAX
  }

  lemma {:induction false} OnePartWorks(input: Chars)
    requires OnePart(input)
    ensures !Absolute(input) && Components(Working(input)) == [Upper(input)]
  {
    assert Working(input) == Upper(input);
    forall k | 0 <= k < |input| ensures Upper(input)[k] != SLASH { assert input[k] in input; }
    NoSlash(Upper(input));
  }

  lemma {:induction false} FollowOne(d: Disc, cwd: Chars, input: Chars)
    requires Settled(d, cwd) && OnePart(input)
    ensures ResolveTo(d, cwd, input) == Directory(d, Enter(Components(cwd), Upper(input)))
  {
    OnePartWorks(input);
    var root, base, c := Root(d).value, Components(cwd), Upper(input);
    hide Components, Walk, Working, Upper, Enter, Join;
    var one := [c];
    assert one[..1] == one;
    assert Normalise(base, one[..0]) == base && Normalise(base, one) == Enter(base, c);
    assert Passable(d, root, base, one) <==> Walk(d, root, Enter(base, c)).Some?;
  }

  /** A settled working directory is the directory of its own components. */
  lemma {:induction false} SettledIs(d: Disc, names: seq<Chars>)
    requires ProperStack(names) && Directory(d, names).Some?
    ensures Settled(d, Join(names)) && Components(Join(names)) == names
  {
    JoinCanonical(names);
    ComponentsJoin(names);
  }

  lemma {:induction false} DotsStay()
    ensures Upper(DOT) == DOT && Upper(DOTDOT) == DOTDOT
  {
  }

  /** From a directory c under the directory names, ".." resolves to the directory names. */
  lemma {:induction false} DotDotGoesUp(d: Disc, names: seq<Chars>, c: Chars)
    requires ProperStack(names + [c]) && Directory(d, names + [c]).Some?
    ensures Directory(d, names).Some? && ResolveTo(d, Join(names + [c]), DOTDOT) == Directory(d, names)
  {
    hide Walk, Join, Components, Settled, ProperStack, Upper, Root;
    SettledIs(d, names + [c]);
    WalkPrefix(d, Root(d).value, names + [c], |names|);
    assert (names + [c])[..|names|] == names;
    DotsStay();
    FollowOne(d, Join(names + [c]), DOTDOT);
  }

  /** From the root, ".." resolves to the root. */
  lemma {:induction false} DotDotAtRoot(d: Disc)
    requires Root(d).Some?
    ensures ResolveTo(d, [SLASH], DOTDOT) == Some(Resolved(Root(d).value, [SLASH]))
  {
    SettledIs(d, []);
    DotsStay();
    FollowOne(d, [SLASH], DOTDOT);
  }

  /** "." resolves to the working directory. */
  lemma {:induction false} DotStays(d: Disc, names: seq<Chars>)
    requires ProperStack(names) && Directory(d, names).Some?
    ensures ResolveTo(d, Join(names), DOT) == Directory(d, names)
  {
    SettledIs(d, names);
    DotsStay();
    FollowOne(d, Join(names), DOT);
  }

  /** A name as it may be typed, in any case. */
  ghost predicate Name(input: Chars) {
    OnePart(input) && input != DOT && input != DOTDOT
  }

  lemma {:induction false} NameProper(input: Chars)
    requires Name(input)
    ensures Proper(Upper(input)) && Upper(input) != []
  {
    UpperUpper(input);
    var u := Upper(input);
    forall k | 0 <= k < |u| ensures u[k] != SLASH { assert input[k] in input; }
    assert forall k :: 0 <= k < |u| && u[k] == 46 ==> input[k] == 46;
    assert !(u == DOT) && !(u == DOTDOT);
  }

  /** A name resolves to the directory of that name, in upper case, below the working directory. */
  lemma {:induction false} NameGoesDown(d: Disc, names: seq<Chars>, input: Chars)
    requires ProperStack(names) && Directory(d, names).Some? && Name(input)
    ensures ResolveTo(d, Join(names), input) == Directory(d, names + [Upper(input)])
  {
    SettledIs(d, names);
    NameProper(input);
    FollowOne(d, Join(names), input);
  }

  /** A name and back up again: the working directory if the name is a directory, otherwise nothing. */
  lemma {:induction false} DownAndUp(d: Disc, names: seq<Chars>, input: Chars)
    requires ProperStack(names) && Directory(d, names).Some? && Name(input) && |input| + 3 < PATH_MAX
    ensures ResolveTo(d, Join(names), input + [SLASH] + DOTDOT) ==
      if Directory(d, names + [Upper(input)]).Some? then Directory(d, names) else None
  {
    SettledIs(d, names);
    NameProper(input);
    NameGoesDown(d, names, input);
    ResolveInTwo(d, Join(names), input, DOTDOT);
    if Directory(d, names + [Upper(input)]).Some? { DotDotGoesUp(d, names, Upper(input)); }
  }

  /** Slashes that are doubled or end the input change nothing. */
  lemma {:induction false} ExtraSlashes(d: Disc, cwd: Chars, a: Chars, b: Chars)
    requires a != [] && |a| + 2 + |b| < PATH_MAX
    ensures ResolveTo(d, cwd, a + [SLASH] + [SLASH] + b) == ResolveTo(d, cwd, a + [SLASH] + b)
    ensures ResolveTo(d, cwd, a + [SLASH]) == ResolveTo(d, cwd, a)
  {
    hide Working, Components, Passable, Normalise, Walk, Join, Root;
    SlashesWorking(a, b);
    ExtraParts(Working(a), Upper(b));
  }

  /** The upper-case copy of an input with slashes in it. */
  lemma {:induction false} SlashesWorking(a: Chars, b: Chars)
    requires a != [] && |a| + 2 + |b| < PATH_MAX
    ensures Working(a + [SLASH] + b) == Working(a) + [SLASH] + Upper(b)
    ensures Working(a + [SLASH] + [SLASH] + b) == Working(a) + [SLASH] + ([SLASH] + Upper(b))
    ensures Working(a + [SLASH]) == Working(a) + [SLASH]
  {
    hide Working, Upper;
    WorkingMore(a, [SLASH] + b);
    WorkingMore(a, [SLASH] + ([SLASH] + b));
    WorkingMore(a, [SLASH]);
    UpperSlash(b);
    UpperSlash([SLASH] + b);
    UpperSlash([]);
    assert a + [SLASH] + b == a + ([SLASH] + b) && a + [SLASH] + [SLASH] + b == a + ([SLASH] + ([SLASH] + b));
    assert [SLASH] + [] == [SLASH];
    Associate(Working(a), [SLASH], Upper(b));
    Associate(Working(a), [SLASH], [SLASH] + Upper(b));
  }

  lemma {:induction false} WorkingMore(a: Chars, t: Chars)
    requires a != [] && |a| + |t| < PATH_MAX
    ensures Working(a + t) == Working(a) + Upper(t)
  {
    assert (a + t)[1..] == a[1..] + t;
  }

  lemma {:induction false} UpperSlash(t: Chars)
    ensures Upper([SLASH] + t) == [SLASH] + Upper(t) && Upper([]) == []
  {
  }

  lemma {:induction false} ExtraParts(a: Chars, b: Chars)
    ensures Components(a + [SLASH] + ([SLASH] + b)) == Components(a + [SLASH] + b) && Components(a + [SLASH]) == Components(a)
  {
    hide Components;
    ComponentsSlash(a, b);
    ComponentsLeadingSlash([SLASH] + b);
    ComponentsSlash(a, [SLASH] + b);
    assert ([SLASH] + b)[1..] == b && a + [SLASH] + [] == a + [SLASH];
    ComponentsSlash(a, []);
    NoComponents();
    assert Components(a) + [] == Components(a);
  }

  /** Only as many characters of the input as the working buffer holds are looked at. */
  lemma {:induction false} LongInputCut(d: Disc, cwd: Chars, input: Chars)
    ensures !Absolute(input) && |input| >= PATH_MAX ==> ResolveTo(d, cwd, input) == ResolveTo(d, cwd, input[..255])
    ensures Absolute(input) && |input| > PATH_MAX ==> ResolveTo(d, cwd, input) == ResolveTo(d, cwd, input[..256])
  {
    hide Passable, Normalise, Components, Walk;
    if !Absolute(input) && |input| >= PATH_MAX {
      assert Working(input) == Working(input[..255]);
    } else if |input| > PATH_MAX {
      assert input[..256][1..] == input[1..][..255];
      assert Working(input) == Working(input[..256]);
    }
  }

  /** From the root a path leads where it leads from any directory when it starts with a slash. */
  lemma {:induction false} LeadingSlash(d: Disc, cwd: Chars, input: Chars)
    requires input != [] && !Absolute(input)
    ensures ResolveTo(d, cwd, [SLASH] + input) == ResolveTo(d, [SLASH], input)
  {
    assert ([SLASH] + input)[1..] == input;
    ComponentsLeadingSlash([SLASH]);
    NoComponents();
  }
}
