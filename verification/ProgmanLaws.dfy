/**
 What each user action does to Program Manager's lists: who is added at which end, who goes,
 in what order the others stay, and what is active afterwards.
 */
module ProgmanLaws {
  import opened ProgmanLists
  import opened ProgmanOps
  import opened ProgramManager

  /** A list without one of its elements, the others in their order. */
  ghost predicate Removed(o: seq<nat>, p: nat, r: seq<nat>) {
    exists a: seq<nat>, b: seq<nat> :: o == a + [p] + b && r == a + b
  }

  /** A new group comes last, empty and active, with the highest number; nothing else changes. */
  lemma {:induction false} NewGroupMeans(w: World)
    ensures var r, n := Step(w, NewGroup), w.h.unused;
      && n !in w.h.groups && n !in w.h.programs
      && r.s.gs == w.s.gs + [n] && r.s.ps == w.s.ps[n := []] && r.h.programs == w.h.programs
      && r.h.active == n && n in r.h.groups
      && (forall g :: g in w.h.groups ==> g in r.h.groups && r.h.groups[g] == w.h.groups[g])
      && (forall i :: 0 <= i < |w.s.gs| ==> w.s.gs[i] in w.h.groups && w.h.groups[w.s.gs[i]].seqnum < r.h.groups[n].seqnum)
  {
    hide Rep;
    UnusedHandle(w, 0);
    NumbersOf(w);
    var r, n := Step(w, NewGroup), w.h.unused;
    NumbersOf(r);
    assert r.s.gs[|w.s.gs|] == n && forall i :: 0 <= i < |w.s.gs| ==> r.s.gs[i] == w.s.gs[i];
  }

  lemma {:induction false} NumbersOf(w: World)
    ensures forall i :: 0 <= i < |w.s.gs| ==> w.s.gs[i] in w.h.groups
    ensures forall i, j :: 0 <= i < j < |w.s.gs| ==> w.h.groups[w.s.gs[i]].seqnum < w.h.groups[w.s.gs[j]].seqnum
  {
  }

  /** A new program comes last in its group and is the active one there. */
  ghost predicate AddedTo(w: World, g: nat, item: nat, r: World) {
    var n := w.h.unused;
    && n !in w.h.groups && n !in w.h.programs && g in w.s.ps && g in w.h.groups && g in r.h.groups
    && r.s.gs == w.s.gs && r.s.ps == w.s.ps[g := w.s.ps[g] + [n]]
    && r.h.programs == w.h.programs[n := Program(g, item)]
    && r.h.groups[g].active == n && r.h.groups[g].seqnum == w.h.groups[g].seqnum && r.h.active == w.h.active
    && (forall k :: k in w.h.groups && k != g ==> k in r.h.groups && r.h.groups[k] == w.h.groups[k])
  }

  lemma {:induction false} NewProgramMeans(w: World, g: nat, item: nat)
    ensures g in w.s.ps ==> AddedTo(w, g, item, Step(w, NewProgram(g, item)))
    ensures g !in w.s.ps ==> Step(w, NewProgram(g, item)) == w
  {
    hide Rep;
    if g in w.s.ps {
      UnusedHandle(w, g);
      HeadOf(w, g);
    }
  }

  /** A deleted program leaves its group, which has no active program then; the others stay in order. */
  ghost predicate TakenFrom(w: World, p: nat, r: World) {
    && p in w.h.programs
    && var g := w.h.programs[p].owner;
       && g in w.s.ps && g in r.s.ps && g in w.h.groups && g in r.h.groups
       && r.s.gs == w.s.gs && r.s.ps == w.s.ps[g := r.s.ps[g]] && Removed(w.s.ps[g], p, r.s.ps[g])
       && r.h.programs == w.h.programs - {p}
       && r.h.groups[g].active == 0 && r.h.groups[g].seqnum == w.h.groups[g].seqnum && r.h.active == w.h.active
       && (forall k :: k in w.h.groups && k != g ==> k in r.h.groups && r.h.groups[k] == w.h.groups[k])
  }

  lemma {:induction false} TakenOut(o: seq<nat>, i: nat)
    requires i < |o|
    ensures Removed(o, o[i], Without(o, i))
  {
    assert o == o[..i] + [o[i]] + o[i + 1..];
  }

  lemma {:induction false} DeleteProgramMeans(w: World, p: nat)
    requires p in w.h.programs
    ensures TakenFrom(w, p, DeleteProgram(w, p))
  {
    hide Removed, Rep;
    ProgramFiled(w, p);
    var g := w.h.programs[p].owner;
    var i := IndexOf(w.s.ps[g], p);
    ProgramAt(w, g, i);
    TakenOut(w.s.ps[g], i);
  }

  lemma {:induction false} RemoveProgramMeans(w: World, p: nat)
    ensures p in w.h.programs ==> TakenFrom(w, p, Step(w, RemoveProgram(p)))
    ensures p !in w.h.programs ==> Step(w, RemoveProgram(p)) == w
  {
    hide Rep, TakenFrom, DeleteProgram;
    if p in w.h.programs { DeleteProgramMeans(w, p); }
  }

  /** A copy is a new program with the same item; a move then deletes the old one. */
  lemma {:induction false} CopyMeans(w: World, p: nat, target: nat, move: bool) returns (copied: World)
    requires p in w.h.programs && target in w.s.ps
    ensures AddedTo(w, target, w.h.programs[p].item, copied)
    ensures Step(w, CopyTo(p, target, false)) == copied && TakenFrom(copied, p, Step(w, CopyTo(p, target, true)))
  {
    hide Rep, AddedTo, TakenFrom;
    var item := w.h.programs[p].item;
    NewProgramMeans(w, target, item);
    copied := Step(w, NewProgram(target, item));
    DeleteProgramMeans(copied, p);
  }

  /** A deleted group leaves the list with all its programs; every other group and program stays as it was. */
  lemma {:induction false} RemoveGroupMeans(w: World, g: nat)
    requires g in w.s.gs
    ensures var r := Step(w, RemoveGroup(g));
      && g in w.s.ps && Removed(w.s.gs, g, r.s.gs) && r.s.ps == w.s.ps - {g}
      && r.h.programs == w.h.programs - Elements(w.s.ps[g])
  {
    hide Rep, Removed, DeleteGroup;
    var i := IndexOf(w.s.gs, g);
    TakenOut(w.s.gs, i);
    DeleteGroupExact(w, i, DeleteGroup(w, i));
  }
}
