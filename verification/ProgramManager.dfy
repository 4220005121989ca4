/**
 Program Manager at work: whole operations on groups and programs, runs of them, and the
 program that performs them by rewiring links in place.
 */
module ProgramManager {
  import opened ProgmanLists
  import opened ProgmanOps

  // ----------------------------------------------------------------- whole operations

  /** The loop of GROUP_DeleteGroup: the first program goes until there is none. */
  function EmptyGroup(w: World, g: nat): (r: World)
    requires g in w.s.ps
    ensures r.s.gs == w.s.gs && g in r.s.ps && r.s.ps[g] == []
    decreases |w.s.ps[g]|
  {
    if w.s.ps[g] == [] then w else EmptyGroup(DeleteAt(w, g, 0), g)
  }

  /** GROUP_DeleteGroup */
  function DeleteGroup(w: World, i: nat): (r: World)
    requires i < |w.s.gs|
  {
    GroupNode(w, i);
    var d, g := DetachGroup(w, i), w.s.gs[i];
    WithoutDistinct(w.s.gs, i);
    DiscardGroup(EmptyGroup(d, g), g)
  }

  /** Where a program stands: its group and its position there. */
  function GroupOf(w: World, p: nat): nat
    requires p in w.h.programs
  {
    w.h.programs[p].owner
  }

  function IndexOf(o: seq<nat>, p: nat): (i: nat)
    requires p in o
    ensures i < |o| && o[i] == p
  {
    if o[0] == p then 0 else 1 + IndexOf(o[1..], p)
  }

  lemma {:induction false} ProgramFiled(w: World, p: nat)
    requires p in w.h.programs
    ensures GroupOf(w, p) in w.s.ps && p in w.s.ps[GroupOf(w, p)]
  {
    assert Filed(w.h, w.s, p);
  }

  /** PROGRAM_DeleteProgram */
  function DeleteProgram(w: World, p: nat): (r: World)
    requires p in w.h.programs
    ensures r.h.programs == w.h.programs - {p} && r.s.gs == w.s.gs
  {
    ProgramFiled(w, p);
    ProgramAt(w, GroupOf(w, p), IndexOf(w.s.ps[GroupOf(w, p)], p));
    DeleteAt(w, GroupOf(w, p), IndexOf(w.s.ps[GroupOf(w, p)], p))
  }

  /** PROGRAM_CopyMoveProgram with the target group the dialog returned */
  function CopyProgram(w: World, p: nat, target: nat, move: bool): World
    requires p in w.h.programs && target in w.s.ps
  {
    var copied := AddProgram(w, target, w.h.programs[p].item);
    if move then DeleteProgram(copied, p) else copied
  }

  // ----------------------------------------------------------------- what they achieve

  /** Emptying the group leads to this state. */
  ghost predicate Empties(w: World, g: nat, r: World) {
    g in w.s.ps && EmptyGroup(w, g) == r
  }

  lemma {:induction false} DeleteFirst(w: World, g: nat, r: World) returns (d: World)
    requires Empties(w, g, r) && w.s.ps[g] != []
    ensures var o := w.s.ps[g]; d.s.ps == w.s.ps[g := o[1..]] && d.h.programs == w.h.programs - {o[0]}
    ensures Empties(d, g, r)
  {
    d := DeleteAt(w, g, 0);
    assert Without(w.s.ps[g], 0) == w.s.ps[g][1..];
  }

  lemma {:induction false} UpdateTwice(m: map<nat, seq<nat>>, g: nat, x: seq<nat>, y: seq<nat>)
    ensures m[g := x][g := y] == m[g := y]
    ensures g in m && m[g] == y ==> m[g := y] == m
  {
  }

  lemma {:induction false} UpdateDropped(m: map<nat, seq<nat>>, g: nat, x: seq<nat>)
    ensures m[g := x] - {g} == m - {g}
  {
  }

  function Elements(o: seq<nat>): set<nat> {
    set p | p in o
  }

  lemma {:induction false} MinusElements(m: map<nat, Program>, o: seq<nat>)
    requires o != []
    ensures m - {o[0]} - Elements(o[1..]) == m - Elements(o)
  {
    assert Elements(o) == {o[0]} + Elements(o[1..]);
  }

  /** Emptying a group removes exactly its own programs. */
  lemma {:induction false} EmptyGroupExact(w: World, g: nat, r: World)
    requires Empties(w, g, r)
    ensures r.h.programs == w.h.programs - Elements(w.s.ps[g]) && r.s.ps == w.s.ps[g := []]
    decreases |w.s.ps[g]|
  {
    var o := w.s.ps[g];
    if o == [] {
      UpdateTwice(w.s.ps, g, [], []);
    } else {
      var d := DeleteFirst(w, g, r);
      MinusElements(w.h.programs, o);
      UpdateTwice(w.s.ps, g, o[1..], []);
      EmptyGroupExact(d, g, r);
    }
  }

  /** Deleting the i-th group leads to this state. */
  ghost predicate Deletes(w: World, i: nat, r: World) {
    i < |w.s.gs| && DeleteGroup(w, i) == r
  }

  lemma {:induction false} DeleteSteps(w: World, i: nat, r: World) returns (d: World, e: World)
    requires Deletes(w, i, r)
    ensures var g := w.s.gs[i];
      && d.s == w.s.(gs := Without(w.s.gs, i)) && d.h.programs == w.h.programs && Empties(d, g, e)
      && e.s.gs == d.s.gs && r.h.programs == e.h.programs && r.s.gs == e.s.gs && r.s.ps == e.s.ps - {g} && g in w.s.ps
  {
    GroupNode(w, i);
    WithoutDistinct(w.s.gs, i);
    d := DetachGroup(w, i);
    e := EmptyGroup(d, w.s.gs[i]);
  }

  /** Deleting a group removes the group and exactly its own programs; everything else stays. */
  lemma {:induction false} DeleteGroupExact(w: World, i: nat, r: World)
    requires Deletes(w, i, r)
    ensures var g := w.s.gs[i];
      && g in w.s.ps && r.s.gs == Without(w.s.gs, i) && r.s.ps == w.s.ps - {g}
      && r.h.programs == w.h.programs - Elements(w.s.ps[g])
  {
    var g := w.s.gs[i];
    var d, e := DeleteSteps(w, i, r);
    EmptyGroupExact(d, g, e);
    UpdateDropped(w.s.ps, g, []);
  }

  /** A move changes where the program is and nothing else: no program is lost or doubled. */
  lemma {:induction false} MoveConserves(w: World, p: nat, target: nat)
    requires p in w.h.programs && target in w.s.ps
    ensures var r, n := CopyProgram(w, p, target, true), w.h.unused;
      && n !in w.h.programs
      && r.h.programs == w.h.programs[n := Program(target, w.h.programs[p].item)] - {p}
      && |r.h.programs| == |w.h.programs|
  {
    UnusedHandle(w, target);
    var n := w.h.unused;
    var copied := AddProgram(w, target, w.h.programs[p].item);
    assert copied.h.programs == w.h.programs[n := Program(target, w.h.programs[p].item)];
    MoveCount(w.h.programs, p, n, Program(target, w.h.programs[p].item));
  }

  lemma {:induction false} MoveCount(m: map<nat, Program>, p: nat, n: nat, x: Program)
    requires p in m && n !in m
    ensures |m[n := x] - {p}| == |m|
  {
    assert (m[n := x] - {p}).Keys == m.Keys + {n} - {p};
    assert |m.Keys + {n}| == |m.Keys| + 1;
  }

  // -------------------------------------------------------------------------- whole runs

  datatype Event = NewGroup | NewProgram(group: nat, item: nat) | RemoveProgram(program: nat) | RemoveGroup(group: nat)
                 | CopyTo(program: nat, target: nat, move: bool)

  /** Between operations every group is in the list. */
  predicate Settled(w: State) {
    forall g :: g in w.s.ps ==> g in w.s.gs
  }

  /** One user action on live handles; anything else has no effect. */
  function Step(w: World, e: Event): World {
    match e
    case NewGroup => AddGroup(w)
    case NewProgram(g, item) => if g in w.s.ps then AddProgram(w, g, item) else w
    case RemoveProgram(p) => if p in w.h.programs then DeleteProgram(w, p) else w
    case RemoveGroup(g) => if g in w.s.gs then DeleteGroup(w, IndexOf(w.s.gs, g)) else w
    case CopyTo(p, target, move) => if p in w.h.programs && target in w.s.ps then CopyProgram(w, p, target, move) else w
  }

  lemma {:induction false} DeleteProgramKeys(w: World, p: nat)
    requires p in w.h.programs
    ensures DeleteProgram(w, p).s.ps.Keys == w.s.ps.Keys
  {
    ProgramFiled(w, p);
  }

  lemma {:induction false} GroupsDistinct(w: World)
    ensures Distinct(w.s.gs)
  {
  }

  lemma {:induction false} AddedSettled(w: World)
    requires Settled(w)
    ensures Settled(AddGroup(w))
  {
  }

  lemma {:induction false} AddProgramKeys(w: World, g: nat, item: nat)
    requires g in w.s.ps
    ensures AddProgram(w, g, item).s.ps.Keys == w.s.ps.Keys && AddProgram(w, g, item).s.gs == w.s.gs
  {
  }

  lemma {:induction false} RemovedSettled(w: World, g: nat)
    requires Settled(w) && g in w.s.gs
    ensures Settled(DeleteGroup(w, IndexOf(w.s.gs, g)))
  {
    hide Rep;
    var i := IndexOf(w.s.gs, g);
    DeleteGroupExact(w, i, DeleteGroup(w, i));
    GroupsDistinct(w);
    forall k ensures k in Without(w.s.gs, i) <==> k in w.s.gs && k != g { WithoutIn(w.s.gs, i, k); }
  }

  lemma {:induction false} StepSettled(w: World, e: Event)
    requires Settled(w)
    ensures Settled(Step(w, e))
  {
    hide Rep;
    match e
    case NewGroup => AddedSettled(w);
    case NewProgram(g, item) => if g in w.s.ps { AddProgramKeys(w, g, item); }
    case RemoveProgram(p) => if p in w.h.programs { DeleteProgramKeys(w, p); }
    case RemoveGroup(g) =>
      if g in w.s.gs { RemovedSettled(w, g); }
    case CopyTo(p, target, move) =>
      if p in w.h.programs && target in w.s.ps {
        AddProgramKeys(w, target, w.h.programs[p].item);
        if move { DeleteProgramKeys(AddProgram(w, target, w.h.programs[p].item), p); }
      }
  }

  function Run(w: World, es: seq<Event>): World
    decreases |es|
  {
    if es == [] then w else Run(Step(w, es[0]), es[1..])
  }

  /**
   In every run from the start the links are those of well-formed lists: they mirror each other,
   programs point at their own group, numbers grow, active ones are alive, and no group is lost.
   */
  lemma {:induction false} EveryRun(w: World, es: seq<Event>)
    requires Settled(w)
    ensures var r := Run(w, es); Rep(r.h, r.s) && Settled(r)
    decreases |es|
  {
    if es != [] {
      StepSettled(w, es[0]);
      EveryRun(Step(w, es[0]), es[1..]);
    }
  }

  /** The state before the first group is added. */
  const EMPTY: World := State(Heap(map[], map[], map[], 0, 0, 1), Shape([], map[]))

  // ------------------------------------------------------------------ links in memory

  class Memory {
    var links: map<nat, Node>
    var groups: map<nat, Group>
    var programs: map<nat, Program>
    var first: nat
    var active: nat
    var unused: nat
    ghost var w: World

    ghost function Mem(): Heap
      reads this`links, this`groups, this`programs, this`first, this`active, this`unused
    {
      Heap(links, groups, programs, first, active, unused)
    }

    ghost predicate Valid()
      reads this
    {
      w.h == Mem()
    }

    constructor ()
      ensures Valid() && w == EMPTY
    {
      links, groups, programs, first, active, unused := map[], map[], map[], 0, 0, 1;
      w := EMPTY;
    }

    /** The loop that follows the links of a program list to its end. */
    method LastProgram(g: nat) returns (last: nat)
      requires Valid() && g in w.s.ps
      ensures last == Last(w.s.ps[g])
    {
      ghost var o := w.s.ps[g];
      assert ListOf(w.h, w.s, g);
      last := 0;
      var cur := groups[g].head;
      ghost var k: nat := 0;
      while cur != 0
        invariant k <= |o| && cur == At(o, k) && last == At(o, k - 1)
        decreases |o| - k
      {
        assert Linked(links, o, k);
        last := cur;
        cur := links[cur].next;
        k := k + 1;
      }
      assert forall i :: 0 <= i < |o| ==> o[i] != 0;
    }

    /** The loop of GROUP_AddGroup: the last group, and a number above all others. */
    method LastGroup() returns (last: nat, seqnum: int)
      requires Valid()
      ensures last == Last(w.s.gs) && seqnum == NextNumber(w.h, w.s.gs, |w.s.gs|)
    {
      ghost var o := w.s.gs;
      assert Chain(w.h.links, w.h.first, o);
      last, seqnum := 0, 1;
      var cur := first;
      ghost var k: nat := 0;
      while cur != 0
        invariant k <= |o| && cur == At(o, k) && last == At(o, k - 1) && seqnum == NextNumber(w.h, o, k)
        decreases |o| - k
      {
        GroupNode(w, k);
        last := cur;
        if groups[cur].seqnum >= seqnum { seqnum := groups[cur].seqnum + 1; }
        cur := links[cur].next;
        k := k + 1;
      }
      assert forall i :: 0 <= i < |o| ==> o[i] != 0;
    }

    method AppendNode(last: nat, n: nat)
      requires last == 0 || last in links
      requires 0 !in links
      modifies this`links
      ensures links == Append(old(links), last, n)
    {
      if last != 0 { links := links[last := links[last].(next := n)]; }
      links := links[n := Node(last, 0)];
    }

    /** The two assignments that take a node out of its list. */
    method BypassNode(n: nat)
      requires n in links && (links[n].prior == 0 || links[n].prior in links) && (links[n].next == 0 || links[n].next in links)
      modifies this`links
      ensures links == Bypass(old(links), n)
    {
      var x := links[n];
      if x.prior != 0 { links := links[x.prior := links[x.prior].(next := x.next)]; }
      if x.next != 0 { links := links[x.next := links[x.next].(prior := x.prior)]; }
    }

    method StoreGroup(last: nat, seqnum: int)
      requires last == 0 || last in links
      requires 0 !in links
      modifies this`links, this`groups, this`first, this`active, this`unused
      ensures Mem() == LinkGroup(old(Mem()), last, seqnum)
    {
      var n := unused;
      active := n;
      if last == 0 { first := n; }
      AppendNode(last, n);
      groups := groups[n := Group(seqnum, 0, 0)];
      unused := n + 1;
    }

    /** GROUP_AddGroup */
    method NewGroup() returns (n: nat)
      requires Valid()
      modifies this
      ensures Valid() && w == AddGroup(old(w)) && n == old(unused)
    {
      n := unused;
      var last, seqnum := LastGroup();
      AddGroupHeap(w);
      InstallGroup(last, seqnum, AddGroup(w));
    }

    method InstallGroup(last: nat, seqnum: int, ghost after: World)
      requires (last == 0 || last in links) && 0 !in links && after.h == LinkGroup(Mem(), last, seqnum)
      modifies this
      ensures Valid() && w == after
    {
      StoreGroup(last, seqnum);
      w := after;
    }

    method StoreProgram(g: nat, last: nat, item: nat)
      requires g in groups && (last == 0 || last in links) && 0 !in links
      modifies this`links, this`groups, this`programs, this`unused
      ensures Mem() == LinkProgram(old(Mem()), g, last, item)
    {
      var p := unused;
      var x := groups[g];
      x := x.(active := p);
      if last == 0 { x := x.(head := p); }
      groups := groups[g := x];
      AppendNode(last, p);
      programs := programs[p := Program(g, item)];
      unused := p + 1;
    }

    /** PROGRAM_AddProgram */
    method NewProgram(g: nat, item: nat) returns (p: nat)
      requires Valid() && g in w.s.ps
      modifies this
      ensures Valid() && w == AddProgram(old(w), g, item) && p == old(unused)
    {
      p := unused;
      var last := LastProgram(g);
      InstallProgram(g, last, item);
    }

    method InstallProgram(g: nat, last: nat, item: nat)
      requires Valid() && g in w.s.ps && last == Last(w.s.ps[g])
      modifies this
      ensures Valid() && w == AddProgram(old(w), g, item)
    {
      hide Rep;
      AddProgramHeap(w, g, item);
      ghost var after := AddProgram(w, g, item);
      StoreProgram(g, last, item);
      w := after;
    }

    method RemoveProgram(p: nat)
      requires p in programs && p in links && programs[p].owner in groups
      requires (links[p].prior == 0 || links[p].prior in links) && (links[p].next == 0 || links[p].next in links)
      modifies this`links, this`groups, this`programs
      ensures Mem() == UnlinkProgram(old(Mem()), p)
    {
      var g, n := programs[p].owner, links[p];
      var x := groups[g];
      x := x.(active := 0);
      if n.prior == 0 { x := x.(head := n.next); }
      groups := groups[g := x];
      BypassNode(p);
      links := links - {p};
      programs := programs - {p};
    }

    /** PROGRAM_DeleteProgram */
    method DropProgram(p: nat)
      requires Valid() && p in programs
      modifies this
      ensures Valid() && w == DeleteProgram(old(w), p)
    {
      hide UnlinkProgram, DeleteProgram, Rep;
      WhereIs(w, p);
      ghost var after := DeleteProgram(w, p);
      DeletedHeap(w, p);
      RemoveProgram(p);
      w := after;
    }

    method DetachFromList(g: nat, ghost i: nat)
      requires Valid() && i < |w.s.gs| && w.s.gs[i] == g
      modifies this
      ensures Valid() && w == DetachGroup(old(w), i) && g in w.s.ps && g !in w.s.gs
    {
      hide UnlinkGroup, DetachGroup, Rep;
      WhereIsGroup(w, i);
      ghost var after := DetachGroup(w, i);
      DetachedHeap(w, i);
      UnlinkFromList(g);
      w := after;
    }

    method UnlinkFromList(g: nat)
      requires g in links && (links[g].prior == 0 || links[g].prior in links) && (links[g].next == 0 || links[g].next in links)
      modifies this`links, this`first, this`active
      ensures Mem() == UnlinkGroup(old(Mem()), g)
    {
      active := 0;
      if links[g].prior == 0 { first := links[g].next; }
      BypassNode(g);
    }

    /** The loop of GROUP_DeleteGroup */
    method DropPrograms(g: nat)
      requires Valid() && g in w.s.ps
      modifies this
      ensures Valid() && w == EmptyGroup(old(w), g)
    {
      ghost var end := EmptyGroup(w, g);
      HeadOf(w, g);
      while groups[g].head != 0
        invariant Valid() && Empties(w, g, end) && g in groups
        decreases |w.s.ps[g]|
      {
        ghost var was := w;
        HeadOf(w, g);
        DropProgram(groups[g].head);
        HeadDeleted(was, w, g, end);
      }
      HeadOf(w, g);
    }

    /** GROUP_DeleteGroup */
    method DropGroup(g: nat)
      requires Valid() && g in w.s.gs
      modifies this
      ensures Valid() && w == DeleteGroup(old(w), IndexOf(old(w).s.gs, g))
    {
      ghost var i, before := IndexOf(w.s.gs, g), w;
      DetachFromList(g, i);
      ghost var detached := w;
      DropPrograms(g);
      ghost var emptied := w;
      FreeMemory(g);
      DeleteSequence(before, i, detached, emptied, w);
    }

    method FreeMemory(g: nat)
      requires Valid() && g in w.s.ps && g !in w.s.gs && w.s.ps[g] == []
      modifies this
      ensures Valid() && w == DiscardGroup(old(w), g)
    {
      ghost var after := DiscardGroup(w, g);
      assert after.h == FreeGroup(Mem(), g);
      RemoveGroup(g, after);
    }

    method RemoveGroup(g: nat, ghost after: World)
      requires after.h == FreeGroup(Mem(), g)
      modifies this`links, this`groups, this`w
      ensures Valid() && w == after
    {
      links := links - {g};
      groups := groups - {g};
      w := after;
    }
  }

  lemma {:induction false} AddGroupHeap(w: World)
    ensures var gs := w.s.gs; AddGroup(w).h == LinkGroup(w.h, Last(gs), NextNumber(w.h, gs, |gs|))
    ensures (Last(w.s.gs) == 0 || Last(w.s.gs) in w.h.links) && 0 !in w.h.links
  {
    LastIn(w, w.h.first, w.s.gs);
    UnusedHandle(w, 0);
  }

  lemma {:induction false} AddProgramHeap(w: World, g: nat, item: nat)
    requires g in w.s.ps
    ensures g in w.h.groups && AddProgram(w, g, item).h == LinkProgram(w.h, g, Last(w.s.ps[g]), item)
    ensures (Last(w.s.ps[g]) == 0 || Last(w.s.ps[g]) in w.h.links) && 0 !in w.h.links
  {
    HeadOf(w, g);
    UnusedHandle(w, g);
  }

  lemma {:induction false} DeleteSequence(w: World, i: nat, d: World, e: World, r: World)
    requires i < |w.s.gs| && d == DetachGroup(w, i) && w.s.gs[i] in d.s.ps && e == EmptyGroup(d, w.s.gs[i])
    requires w.s.gs[i] !in e.s.gs && r == DiscardGroup(e, w.s.gs[i])
    ensures r == DeleteGroup(w, i)
  {
  }

  lemma {:induction false} DeletedHeap(w: World, p: nat)
    requires p in w.h.programs
    ensures DeleteProgram(w, p).h == UnlinkProgram(w.h, p)
  {
    hide UnlinkProgram;
  }

  lemma {:induction false} DetachedHeap(w: World, i: nat)
    requires i < |w.s.gs|
    ensures DetachGroup(w, i).h == UnlinkGroup(w.h, w.s.gs[i])
    ensures w.s.gs[i] in DetachGroup(w, i).s.ps && w.s.gs[i] !in DetachGroup(w, i).s.gs
  {
    hide UnlinkGroup;
  }

  lemma {:induction false} WhereIs(w: World, p: nat)
    requires p in w.h.programs
    ensures p in w.h.links && w.h.programs[p].owner in w.h.groups
    ensures var n := w.h.links[p]; (n.prior == 0 || n.prior in w.h.links) && (n.next == 0 || n.next in w.h.links)
  {
    ProgramFiled(w, p);
    var g := GroupOf(w, p);
    var i := IndexOf(w.s.ps[g], p);
    ProgramAt(w, g, i);
    NeighboursIn(w, g, i);
  }

  lemma {:induction false} WhereIsGroup(w: World, i: nat)
    requires i < |w.s.gs|
    ensures var g := w.s.gs[i];
      && g in w.h.links && g in w.s.ps && g !in Without(w.s.gs, i)
      && (w.h.links[g].prior == 0 || w.h.links[g].prior in w.h.links) && (w.h.links[g].next == 0 || w.h.links[g].next in w.h.links)
  {
    GroupNode(w, i);
    WithoutDistinct(w.s.gs, i);
    if i > 0 { GroupNode(w, i - 1); }
    if i + 1 < |w.s.gs| { GroupNode(w, i + 1); }
  }

  lemma {:induction false} NeighboursIn(w: World, g: nat, i: nat)
    requires g in w.s.ps && i < |w.s.ps[g]|
    ensures var o := w.s.ps[g];
      && (At(o, i - 1) != 0 ==> At(o, i - 1) in w.h.links) && (At(o, i + 1) != 0 ==> At(o, i + 1) in w.h.links)
      && At(o, i - 1) != o[i] && At(o, i + 1) != o[i]
  {
    var o := w.s.ps[g];
    ProgramAt(w, g, i);
    if i > 0 { ProgramAt(w, g, i - 1); }
    if i + 1 < |o| { ProgramAt(w, g, i + 1); }
  }

  lemma {:induction false} HeadOf(w: World, g: nat)
    requires g in w.s.ps
    ensures g in w.h.groups && w.h.groups[g].head == At(w.s.ps[g], 0) && (w.h.groups[g].head == 0 <==> w.s.ps[g] == [])
    ensures w.s.ps[g] != [] ==> w.s.ps[g][0] in w.h.programs && GroupOf(w, w.s.ps[g][0]) == g
    ensures Last(w.s.ps[g]) == 0 || Last(w.s.ps[g]) in w.h.links
  {
    assert ListOf(w.h, w.s, g);
    LastIn(w, w.h.groups[g].head, w.s.ps[g]);
    if w.s.ps[g] != [] { ProgramAt(w, g, 0); }
  }

  lemma {:induction false} HeadDeleted(was: World, w: World, g: nat, end: World)
    requires Empties(was, g, end) && was.s.ps[g] != [] && was.s.ps[g][0] in was.h.programs
    requires w == DeleteProgram(was, was.s.ps[g][0])
    ensures Empties(w, g, end) && g in w.h.groups && |w.s.ps[g]| < |was.s.ps[g]|
  {
    HeadOf(was, g);
    assert w == DeleteAt(was, g, 0);
    HeadOf(w, g);
  }
}
