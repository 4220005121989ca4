/**
 Adding and deleting groups and programs: what each operation does to the links, and that
 every list stays in order.
 */
module ProgmanOps {
  import opened ProgmanLists

  // ---------------------------------------------------------------------- programs

  function LinkProgram(h: Heap, g: nat, last: nat, item: nat): Heap
    requires g in h.groups
  {
    var p, x := h.unused, h.groups[g];
    Heap(Append(h.links, last, p), h.groups[g := x.(head := if last == 0 then p else x.head, active := p)],
         h.programs[p := Program(g, item)], h.first, h.active, p + 1)
  }

  function UnlinkProgram(h: Heap, p: nat): Heap
    requires p in h.programs && p in h.links && h.programs[p].owner in h.groups
  {
    var g := h.programs[p].owner;
    var x, n := h.groups[g], h.links[p];
    Heap(Bypass(h.links, p) - {p}, h.groups[g := x.(head := if n.prior == 0 then n.next else x.head, active := 0)],
         h.programs - {p}, h.first, h.active, h.unused)
  }

  lemma {:induction false} AppendElsewhere(links: map<nat, Node>, last: nat, n: nat, head: nat, o: seq<nat>)
    requires Chain(links, head, o) && last !in o && n !in o
    ensures Chain(Append(links, last, n), head, o)
  {
    ChainFrame(links, Append(links, last, n), head, o);
  }

  lemma {:induction false} BypassElsewhere(links: map<nat, Node>, n: nat, head: nat, o: seq<nat>)
    requires Chain(links, head, o) && n in links && n !in o && links[n].prior !in o && links[n].next !in o
    ensures Chain(Bypass(links, n), head, o) && Chain(Bypass(links, n) - {n}, head, o)
  {
    assert 0 !in o;
    forall m | m in o && m in links ensures m in Bypass(links, n) && Bypass(links, n)[m] == links[m] {
      BypassAt(links, n, m);
    }
    ChainFrame(links, Bypass(links, n), head, o);
    ChainFrame(links, Bypass(links, n) - {n}, head, o);
  }

  /** A group is no program, and a program of one group is no program of another. */
  lemma {:induction false} Apart(w: World, g: nat, k: nat, n: nat)
    requires g in w.s.ps && n in w.s.ps[g]
    ensures n !in w.s.gs && (k in w.s.ps && k != g ==> n !in w.s.ps[k])
  {
    assert Owned(w.h, w.s, g);
    assert k in w.s.ps ==> Owned(w.h, w.s, k);
    assert n in w.s.gs ==> n in w.h.groups;
  }

  /** A new handle occurs nowhere. */
  lemma {:induction false} UnusedHandle(w: World, g: nat)
    ensures var n := w.h.unused;
      && n !in w.h.links && n !in w.h.groups && n !in w.h.programs && n !in w.s.gs && n !in w.s.ps
      && 0 !in w.h.links && (g in w.s.ps ==> n !in w.s.ps[g])
  {
    var n := w.h.unused;
    assert n !in w.h.links;
    assert n in w.s.gs ==> n in w.s.ps;
    assert g in w.s.ps ==> Owned(w.h, w.s, g);
  }

  function Last(o: seq<nat>): nat {
    At(o, |o| - 1)
  }

  lemma {:induction false} LastIn(w: World, head: nat, o: seq<nat>)
    requires Chain(w.h.links, head, o)
    ensures (Last(o) == 0 <==> o == []) && (o != [] ==> Last(o) in o && Last(o) in w.h.links) && 0 !in o
  {
    assert o != [] ==> Linked(w.h.links, o, |o| - 1);
  }

  function AfterLink(w: World, g: nat, item: nat): State
    requires g in w.s.ps
  {
    var o := w.s.ps[g];
    State(LinkProgram(w.h, g, Last(o), item), w.s.(ps := w.s.ps[g := o + [w.h.unused]]))
  }

  lemma {:induction false} LinkProgramGroups(w: World, g: nat, item: nat)
    requires g in w.s.ps
    ensures var r := AfterLink(w, g, item); Chain(r.h.links, r.h.first, r.s.gs)
  {
    var o := w.s.ps[g];
    assert ListOf(w.h, w.s, g);
    UnusedHandle(w, g);
    LastIn(w, w.h.groups[g].head, o);
    LastIn(w, w.h.first, w.s.gs);
    if o != [] { Apart(w, g, g, Last(o)); }
    AppendElsewhere(w.h.links, Last(o), w.h.unused, w.h.first, w.s.gs);
  }

  lemma {:induction false} LinkProgramList(w: World, g: nat, item: nat, k: nat)
    requires g in w.s.ps && k in w.s.ps
    ensures var r := AfterLink(w, g, item); ListOf(r.h, r.s, k)
  {
    var o := w.s.ps[g];
    assert ListOf(w.h, w.s, g) && ListOf(w.h, w.s, k);
    UnusedHandle(w, k);
    LastIn(w, w.h.groups[g].head, o);
    if k == g {
      ChainAppend(w.h.links, w.h.groups[g].head, o, w.h.unused);
    } else {
      if o != [] { Apart(w, g, k, Last(o)); }
      LastIn(w, w.h.groups[k].head, w.s.ps[k]);
      AppendElsewhere(w.h.links, Last(o), w.h.unused, w.h.groups[k].head, w.s.ps[k]);
    }
  }

  lemma {:induction false} LinkProgramLists(w: World, g: nat, item: nat)
    requires g in w.s.ps
    ensures var r := AfterLink(w, g, item); Lists(r.h, r.s)
  {
    var r := AfterLink(w, g, item);
    LinkProgramGroups(w, g, item);
    forall k | k in r.s.ps ensures ListOf(r.h, r.s, k) { LinkProgramList(w, g, item, k); }
  }

  lemma {:induction false} LinkProgramMembers(w: World, g: nat, item: nat)
    requires g in w.s.ps
    ensures var r := AfterLink(w, g, item); Members(r.h, r.s)
  {
    var r := AfterLink(w, g, item);
    UnusedHandle(w, g);
    forall k | k in r.s.ps ensures Owned(r.h, r.s, k) { assert Owned(w.h, w.s, k); }
    forall p | p in r.h.programs ensures Filed(r.h, r.s, p) { if p != w.h.unused { assert Filed(w.h, w.s, p); } }
  }

  lemma {:induction false} LinkProgramHandles(w: World, g: nat, item: nat)
    requires g in w.s.ps
    ensures var r := AfterLink(w, g, item); Handles(r.h)
  {
    hide Members, Numbered, Actives;
    UnusedHandle(w, g);
    assert ListOf(w.h, w.s, g);
    LastIn(w, w.h.groups[g].head, w.s.ps[g]);
  }

  lemma {:induction false} LinkProgramRest(w: World, g: nat, item: nat)
    requires g in w.s.ps
    ensures var r := AfterLink(w, g, item); Numbered(r.h, r.s.gs) && Actives(r.h, r.s)
  {
    var r := AfterLink(w, g, item);
    forall k | k in r.h.groups ensures ActiveIn(r.h, r.s, k) { assert ActiveIn(w.h, w.s, k); }
  }

  /** Appending a program to a group's list. */
  lemma {:induction false} LinkProgramKeeps(w: World, g: nat, item: nat)
    requires g in w.s.ps
    ensures var r := AfterLink(w, g, item); Rep(r.h, r.s)
  {
    LinkProgramLists(w, g, item);
    LinkProgramMembers(w, g, item);
    LinkProgramHandles(w, g, item);
    LinkProgramRest(w, g, item);
  }

  /** PROGRAM_AddProgram */
  function AddProgram(w: World, g: nat, item: nat): (r: World)
    requires g in w.s.ps
  {
    LinkProgramKeeps(w, g, item);
    AfterLink(w, g, item)
  }

  // ------------------------------------------------------------------ deleting programs

  lemma {:induction false} ProgramAt(w: World, g: nat, i: nat)
    requires g in w.s.ps && i < |w.s.ps[g]|
    ensures var o := w.s.ps[g];
      && Distinct(o) && o[i] in w.h.programs && w.h.programs[o[i]].owner == g && o[i] in w.h.links && g in w.h.groups
      && w.h.groups[g].head == At(o, 0) && w.h.links[o[i]] == Node(At(o, i - 1), At(o, i + 1))
  {
    var o := w.s.ps[g];
    assert ListOf(w.h, w.s, g) && Owned(w.h, w.s, g);
    assert Linked(w.h.links, o, i) && o[i] in o;
  }

  function AfterUnlink(w: World, g: nat, i: nat): State
    requires g in w.s.ps && i < |w.s.ps[g]|
  {
    ProgramAt(w, g, i);
    State(UnlinkProgram(w.h, w.s.ps[g][i]), w.s.(ps := w.s.ps[g := Without(w.s.ps[g], i)]))
  }

  lemma {:induction false} NeighbourIn(o: seq<nat>, k: int)
    ensures At(o, k) == 0 || At(o, k) in o
  {
  }

  lemma {:induction false} UnlinkElsewhere(w: World, g: nat, i: nat, k: nat, head: nat, o: seq<nat>)
    requires g in w.s.ps && i < |w.s.ps[g]| && Chain(w.h.links, head, o)
    requires o == w.s.gs || (k in w.s.ps && k != g && o == w.s.ps[k])
    ensures Chain(AfterUnlink(w, g, i).h.links, head, o)
  {
    var p := w.s.ps[g];
    ProgramAt(w, g, i);
    assert p[i] in p && 0 !in o;
    Apart(w, g, k, p[i]);
    NeighbourIn(p, i - 1);
    NeighbourIn(p, i + 1);
    if At(p, i - 1) != 0 { Apart(w, g, k, At(p, i - 1)); }
    if At(p, i + 1) != 0 { Apart(w, g, k, At(p, i + 1)); }
    BypassElsewhere(w.h.links, p[i], head, o);
  }

  lemma {:induction false} UnlinkOwn(w: World, g: nat, i: nat)
    requires g in w.s.ps && i < |w.s.ps[g]|
    ensures var r := AfterUnlink(w, g, i); ListOf(r.h, r.s, g)
  {
    hide Members, Numbered, Actives, Handles;
    var o := w.s.ps[g];
    var rest := Without(o, i);
    ProgramAt(w, g, i);
    assert ListOf(w.h, w.s, g);
    ChainBypass(w.h.links, w.h.groups[g].head, o, i);
    WithoutDistinct(o, i);
    ChainFrame(Bypass(w.h.links, o[i]), Bypass(w.h.links, o[i]) - {o[i]}, At(rest, 0), rest);
    WithoutAt(o, i, 0);
    SameAt(o, i - 1, 0);
  }

  lemma {:induction false} UnlinkLists(w: World, g: nat, i: nat)
    requires g in w.s.ps && i < |w.s.ps[g]|
    ensures var r := AfterUnlink(w, g, i); Lists(r.h, r.s)
  {
    var r := AfterUnlink(w, g, i);
    UnlinkElsewhere(w, g, i, g, w.h.first, w.s.gs);
    forall k | k in r.s.ps ensures ListOf(r.h, r.s, k) {
      if k == g {
        UnlinkOwn(w, g, i);
      } else {
        assert ListOf(w.h, w.s, k);
        UnlinkElsewhere(w, g, i, k, w.h.groups[k].head, w.s.ps[k]);
      }
    }
  }

  lemma {:induction false} WithoutIn(o: seq<nat>, i: nat, n: nat)
    requires i < |o| && Distinct(o)
    ensures n in Without(o, i) <==> n in o && n != o[i]
  {
    var r := Without(o, i);
    if n in o && n != o[i] {
      var k :| 0 <= k < |o| && o[k] == n;
      assert r[if k < i then k else k - 1] == n;
    }
  }

  lemma {:induction false} UnlinkMembers(w: World, g: nat, i: nat)
    requires g in w.s.ps && i < |w.s.ps[g]|
    ensures var r := AfterUnlink(w, g, i); Members(r.h, r.s)
  {
    var r, o := AfterUnlink(w, g, i), w.s.ps[g];
    ProgramAt(w, g, i);
    forall k | k in r.s.ps ensures Owned(r.h, r.s, k) {
      assert Owned(w.h, w.s, k);
      if k == g { forall n ensures n in Without(o, i) <==> n in o && n != o[i] { WithoutIn(o, i, n); } }
    }
    forall p | p in r.h.programs ensures Filed(r.h, r.s, p) {
      assert Filed(w.h, w.s, p);
      WithoutIn(o, i, p);
    }
  }

  lemma {:induction false} BypassKeys(links: map<nat, Node>, n: nat)
    requires n in links
    ensures Bypass(links, n).Keys == links.Keys
  {
  }

  lemma {:induction false} UnlinkHandles(w: World, g: nat, i: nat)
    requires g in w.s.ps && i < |w.s.ps[g]|
    ensures var r := AfterUnlink(w, g, i); Handles(r.h)
  {
    hide Members, Numbered, Actives, Lists;
    ProgramAt(w, g, i);
    BypassKeys(w.h.links, w.s.ps[g][i]);
  }

  lemma {:induction false} UnlinkRest(w: World, g: nat, i: nat)
    requires g in w.s.ps && i < |w.s.ps[g]|
    ensures var r := AfterUnlink(w, g, i); Numbered(r.h, r.s.gs) && Actives(r.h, r.s)
  {
    var r := AfterUnlink(w, g, i);
    ProgramAt(w, g, i);
    forall k | k in r.h.groups ensures ActiveIn(r.h, r.s, k) { assert ActiveIn(w.h, w.s, k); }
  }

  /** Deleting the i-th program of a group. */
  lemma {:induction false} UnlinkProgramKeeps(w: World, g: nat, i: nat)
    requires g in w.s.ps && i < |w.s.ps[g]|
    ensures var r := AfterUnlink(w, g, i); Rep(r.h, r.s)
  {
    UnlinkLists(w, g, i);
    UnlinkMembers(w, g, i);
    UnlinkHandles(w, g, i);
    UnlinkRest(w, g, i);
  }

  /** PROGRAM_DeleteProgram */
  function DeleteAt(w: World, g: nat, i: nat): (r: World)
    requires g in w.s.ps && i < |w.s.ps[g]|
  {
    UnlinkProgramKeeps(w, g, i);
    AfterUnlink(w, g, i)
  }

  // ---------------------------------------------------------------------------- groups

  function LinkGroup(h: Heap, last: nat, seqnum: int): Heap {
    var n := h.unused;
    Heap(Append(h.links, last, n), h.groups[n := Group(seqnum, 0, 0)], h.programs, if last == 0 then n else h.first, n, n + 1)
  }

  /** Out of the list of groups, but not yet freed. */
  function UnlinkGroup(h: Heap, g: nat): Heap
    requires g in h.links
  {
    var n := h.links[g];
    h.(links := Bypass(h.links, g), first := if n.prior == 0 then n.next else h.first, active := 0)
  }

  function FreeGroup(h: Heap, g: nat): Heap {
    h.(links := h.links - {g}, groups := h.groups - {g})
  }

  /** The sequence number loop of GROUP_AddGroup over the first k groups. */
  function NextNumber(h: Heap, o: seq<nat>, k: nat): int
    requires k <= |o|
  {
    if k == 0 then 1 else
    var n := NextNumber(h, o, k - 1);
    if o[k - 1] in h.groups && h.groups[o[k - 1]].seqnum >= n then h.groups[o[k - 1]].seqnum + 1 else n
  }

  lemma {:induction false} NextNumberAbove(h: Heap, o: seq<nat>, k: nat, i: nat)
    requires i < k <= |o| && o[i] in h.groups
    ensures h.groups[o[i]].seqnum < NextNumber(h, o, k)
  {
    if i < k - 1 { NextNumberAbove(h, o, k - 1, i); }
  }

  function AfterLinkGroup(w: World): State {
    var n, gs := w.h.unused, w.s.gs;
    State(LinkGroup(w.h, Last(gs), NextNumber(w.h, gs, |gs|)), Shape(gs + [n], w.s.ps[n := []]))
  }

  lemma {:induction false} GroupNode(w: World, i: nat)
    requires i < |w.s.gs|
    ensures var g := w.s.gs[i];
      g in w.s.ps && g in w.h.groups && g in w.h.links && g !in w.h.programs && w.h.links[g] == Node(At(w.s.gs, i - 1), At(w.s.gs, i + 1))
  {
    assert Linked(w.h.links, w.s.gs, i) && w.s.gs[i] in w.s.gs;
  }

  /** No program list contains a group. */
  lemma {:induction false} NoGroupIn(w: World, k: nat, n: nat)
    requires k in w.s.ps && (n == 0 || n in w.h.groups || n !in w.h.links)
    ensures n !in w.s.ps[k]
  {
    assert Owned(w.h, w.s, k) && ListOf(w.h, w.s, k);
    LastIn(w, w.h.groups[k].head, w.s.ps[k]);
    assert n in w.s.ps[k] ==> n in w.h.programs;
  }

  lemma {:induction false} LinkGroupLists(w: World)
    ensures var r := AfterLinkGroup(w); Lists(r.h, r.s)
  {
    var r, n, gs := AfterLinkGroup(w), w.h.unused, w.s.gs;
    UnusedHandle(w, 0);
    LastIn(w, w.h.first, gs);
    ChainAppend(w.h.links, w.h.first, gs, n);
    if gs != [] { GroupNode(w, |gs| - 1); }
    forall k | k in r.s.ps ensures ListOf(r.h, r.s, k) {
      if k != n {
        assert ListOf(w.h, w.s, k);
        NoGroupIn(w, k, n);
        NoGroupIn(w, k, Last(gs));
        AppendElsewhere(w.h.links, Last(gs), n, w.h.groups[k].head, w.s.ps[k]);
      }
    }
  }

  lemma {:induction false} LinkGroupMembers(w: World)
    ensures var r := AfterLinkGroup(w); Members(r.h, r.s)
  {
    var r := AfterLinkGroup(w);
    UnusedHandle(w, 0);
    forall k | k in r.s.ps ensures Owned(r.h, r.s, k) { if k != w.h.unused { assert Owned(w.h, w.s, k); } }
    forall p | p in r.h.programs ensures Filed(r.h, r.s, p) { assert Filed(w.h, w.s, p); }
  }

  lemma {:induction false} LinkGroupNumbers(w: World)
    ensures var r := AfterLinkGroup(w); Numbered(r.h, r.s.gs)
  {
    var gs := w.s.gs;
    UnusedHandle(w, 0);
    forall i | 0 <= i < |gs| ensures gs[i] in w.h.groups && w.h.groups[gs[i]].seqnum < NextNumber(w.h, gs, |gs|) {
      GroupNode(w, i);
      NextNumberAbove(w.h, gs, |gs|, i);
    }
  }

  lemma {:induction false} GroupsChained(w: World)
    ensures Chain(w.h.links, w.h.first, w.s.gs) && w.h.groups.Keys == w.s.ps.Keys
  {
  }

  lemma {:induction false} LinkGroupRest(w: World)
    ensures var r := AfterLinkGroup(w); Handles(r.h) && Actives(r.h, r.s)
  {
    hide Members, Numbered, Lists;
    var r := AfterLinkGroup(w);
    UnusedHandle(w, 0);
    GroupsChained(w);
    LastIn(w, w.h.first, w.s.gs);
    forall k | k in r.h.groups ensures ActiveIn(r.h, r.s, k) { if k != w.h.unused { assert ActiveIn(w.h, w.s, k); } }
    assert w.h.unused in r.s.gs;
  }

  /** GROUP_AddGroup */
  function AddGroup(w: World): (r: World) {
    LinkGroupLists(w);
    LinkGroupMembers(w);
    LinkGroupNumbers(w);
    LinkGroupRest(w);
    AfterLinkGroup(w)
  }

  function AfterUnlinkGroup(w: World, i: nat): State
    requires i < |w.s.gs|
  {
    GroupNode(w, i);
    State(UnlinkGroup(w.h, w.s.gs[i]), w.s.(gs := Without(w.s.gs, i)))
  }

  lemma {:induction false} UnlinkGroupLists(w: World, i: nat)
    requires i < |w.s.gs|
    ensures var r := AfterUnlinkGroup(w, i); Lists(r.h, r.s)
  {
    var r, gs := AfterUnlinkGroup(w, i), w.s.gs;
    GroupNode(w, i);
    ChainBypass(w.h.links, w.h.first, gs, i);
    WithoutAt(gs, i, 0);
    SameAt(gs, i - 1, 0);
    if i > 0 { GroupNode(w, i - 1); }
    if i + 1 < |gs| { GroupNode(w, i + 1); }
    forall k | k in r.s.ps ensures ListOf(r.h, r.s, k) {
      assert ListOf(w.h, w.s, k);
      NoGroupIn(w, k, gs[i]);
      NoGroupIn(w, k, At(gs, i - 1));
      NoGroupIn(w, k, At(gs, i + 1));
      BypassElsewhere(w.h.links, gs[i], w.h.groups[k].head, w.s.ps[k]);
    }
  }

  lemma {:induction false} UnlinkGroupMembers(w: World, i: nat)
    requires i < |w.s.gs|
    ensures var r := AfterUnlinkGroup(w, i); Members(r.h, r.s)
  {
    var r := AfterUnlinkGroup(w, i);
    forall g | g in r.s.gs ensures g in r.s.ps { assert g in w.s.gs; }
    forall k | k in r.s.ps ensures Owned(r.h, r.s, k) { assert Owned(w.h, w.s, k); }
    forall p | p in r.h.programs ensures Filed(r.h, r.s, p) { assert Filed(w.h, w.s, p); }
  }

  lemma {:induction false} UnlinkGroupHandles(w: World, i: nat)
    requires i < |w.s.gs|
    ensures var r := AfterUnlinkGroup(w, i); Handles(r.h)
  {
    GroupNode(w, i);
    BypassKeys(w.h.links, w.s.gs[i]);
  }

  lemma {:induction false} UnlinkGroupRest(w: World, i: nat)
    requires i < |w.s.gs|
    ensures var r := AfterUnlinkGroup(w, i); Numbered(r.h, r.s.gs) && Actives(r.h, r.s)
  {
    var r, gs := AfterUnlinkGroup(w, i), w.s.gs;
    GroupNode(w, i);
    forall k | k in r.h.groups ensures ActiveIn(r.h, r.s, k) { assert ActiveIn(w.h, w.s, k); }
  }

  /** The first step of GROUP_DeleteGroup */
  function DetachGroup(w: World, i: nat): (r: World)
    requires i < |w.s.gs|
  {
    UnlinkGroupLists(w, i);
    UnlinkGroupMembers(w, i);
    UnlinkGroupHandles(w, i);
    UnlinkGroupRest(w, i);
    AfterUnlinkGroup(w, i)
  }

  function AfterFree(w: World, g: nat): State {
    State(FreeGroup(w.h, g), w.s.(ps := w.s.ps - {g}))
  }

  lemma {:induction false} FreeGroupLists(w: World, g: nat)
    requires g in w.s.ps && g !in w.s.gs && w.s.ps[g] == []
    ensures var r := AfterFree(w, g); Lists(r.h, r.s)
  {
    var r := AfterFree(w, g);
    ChainFrame(w.h.links, r.h.links, w.h.first, w.s.gs);
    forall k | k in r.s.ps ensures ListOf(r.h, r.s, k) { FreeGroupList(w, g, k); }
  }

  lemma {:induction false} FreeGroupList(w: World, g: nat, k: nat)
    requires g in w.s.ps && k in w.s.ps && k != g
    ensures var r := AfterFree(w, g); ListOf(r.h, r.s, k)
  {
    assert ListOf(w.h, w.s, k) && ListOf(w.h, w.s, g);
    NoGroupIn(w, k, g);
    ChainFrame(w.h.links, w.h.links - {g}, w.h.groups[k].head, w.s.ps[k]);
  }

  lemma {:induction false} FreeGroupMembers(w: World, g: nat)
    requires g in w.s.ps && g !in w.s.gs && w.s.ps[g] == []
    ensures var r := AfterFree(w, g); Members(r.h, r.s) && Actives(r.h, r.s)
  {
    var r := AfterFree(w, g);
    assert g in w.h.groups && g !in w.h.programs;
    forall k | k in r.s.ps ensures Owned(r.h, r.s, k) { assert Owned(w.h, w.s, k); }
    forall p | p in r.h.programs ensures Filed(r.h, r.s, p) { assert Filed(w.h, w.s, p); }
    forall k | k in r.h.groups ensures ActiveIn(r.h, r.s, k) { assert ActiveIn(w.h, w.s, k); }
  }

  lemma {:induction false} FreeGroupRest(w: World, g: nat)
    requires g in w.s.ps && g !in w.s.gs && w.s.ps[g] == []
    ensures var r := AfterFree(w, g); Members(r.h, r.s) && Handles(r.h) && Numbered(r.h, r.s.gs) && Actives(r.h, r.s)
  {
    hide Actives, Owned;
    FreeGroupMembers(w, g);
  }

  /** The last step of GROUP_DeleteGroup */
  function DiscardGroup(w: World, g: nat): (r: World)
    requires g in w.s.ps && g !in w.s.gs && w.s.ps[g] == []
  {
    FreeGroupLists(w, g);
    FreeGroupRest(w, g);
    AfterFree(w, g)
  }
}
