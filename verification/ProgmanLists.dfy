/**
 Program Manager's lists: groups in one doubly linked list, the programs of each group in
 another. Handles are numbers, 0 is none; list links, groups and programs live in maps.
 */
module ProgmanLists {

  datatype Node = Node(prior: nat, next: nat)
  datatype Group = Group(seqnum: int, head: nat, active: nat)
  datatype Program = Program(owner: nat, item: nat)

  datatype Heap = Heap(links: map<nat, Node>, groups: map<nat, Group>, programs: map<nat, Program>,
                       first: nat, active: nat, unused: nat)

  /** What the links stand for: the groups in list order, and the programs of each group. */
  datatype Shape = Shape(gs: seq<nat>, ps: map<nat, seq<nat>>)

  // ------------------------------------------------------------------------- chains

  function At(o: seq<nat>, i: int): nat {
    if 0 <= i < |o| then o[i] else 0
  }

  predicate Distinct(o: seq<nat>) {
    && (forall i :: 0 <= i < |o| ==> o[i] != 0)
    && (forall i, j :: 0 <= i < j < |o| ==> o[i] != o[j])
  }

  /** A node is linked with the ones before and after it. */
  predicate Linked(links: map<nat, Node>, o: seq<nat>, i: nat) {
    i < |o| && o[i] in links && links[o[i]] == Node(At(o, i - 1), At(o, i + 1))
  }

  /** Forward and backward links mirror each other along the order. */
  predicate Chain(links: map<nat, Node>, head: nat, o: seq<nat>) {
    Distinct(o) && head == At(o, 0) && forall i: nat :: i < |o| ==> Linked(links, o, i)
  }

  /** A new node behind the last one. */
  function Append(links: map<nat, Node>, last: nat, n: nat): map<nat, Node> {
    (if last in links then links[last := links[last].(next := n)] else links)[n := Node(last, 0)]
  }

  /** The neighbours of a node are linked with each other. */
  function Bypass(links: map<nat, Node>, n: nat): map<nat, Node>
    requires n in links
  {
    var x := links[n];
    var a := if x.prior != 0 && x.prior in links then links[x.prior := links[x.prior].(next := x.next)] else links;
    if x.next != 0 && x.next in a then a[x.next := a[x.next].(prior := x.prior)] else a
  }

  function Without(o: seq<nat>, i: nat): (r: seq<nat>)
    requires i < |o|
    ensures |r| == |o| - 1
  {
    o[..i] + o[i + 1..]
  }

  lemma {:induction false} ChainAppend(links: map<nat, Node>, head: nat, o: seq<nat>, n: nat)
    requires Chain(links, head, o) && n != 0 && n !in o && n !in links && 0 !in links
    ensures Chain(Append(links, At(o, |o| - 1), n), if o == [] then n else head, o + [n])
  {
    var r, last := o + [n], At(o, |o| - 1);
    var after := Append(links, last, n);
    assert o != [] ==> Linked(links, o, |o| - 1);
    forall i: nat | i < |r| ensures Linked(after, r, i) {
      if i < |o| { assert Linked(links, o, i); }
    }
  }

  lemma {:induction false} ChainBypass(links: map<nat, Node>, head: nat, o: seq<nat>, i: nat)
    requires Chain(links, head, o) && i < |o|
    ensures o[i] in links && Chain(Bypass(links, o[i]), At(Without(o, i), 0), Without(o, i))
  {
    assert Linked(links, o, i);
    var r, after := Without(o, i), Bypass(links, o[i]);
    WithoutDistinct(o, i);
    assert Linked(links, o, i);
    forall k: nat | k < |r| ensures Linked(after, r, k) { BypassNode(links, head, o, i, k); }
  }

  lemma {:induction false} BypassAt(links: map<nat, Node>, n: nat, m: nat)
    requires n in links && m in links && m != 0
    ensures var x, after := links[n], Bypass(links, n);
      m in after && after[m] == Node(if m == x.next then x.prior else links[m].prior, if m == x.prior then x.next else links[m].next)
  {
  }

  lemma {:induction false} SameAt(o: seq<nat>, i: int, j: nat)
    requires Distinct(o) && j < |o|
    ensures o[j] == At(o, i) <==> i == j
  {
  }

  /** Which neighbours a remaining node gets. */
  lemma {:induction false} NeighboursAfter(o: seq<nat>, i: nat, k: nat)
    requires Distinct(o) && i < |o| && k < |o| - 1
    ensures var r := Without(o, i); var j := if k < i then k else k + 1;
      && r[k] == o[j]
      && At(r, k - 1) == (if o[j] == At(o, i + 1) then At(o, i - 1) else At(o, j - 1))
      && At(r, k + 1) == (if o[j] == At(o, i - 1) then At(o, i + 1) else At(o, j + 1))
  {
    var j := if k < i then k else k + 1;
    SameAt(o, i - 1, j);
    SameAt(o, i + 1, j);
    WithoutAt(o, i, k);
    WithoutAt(o, i, k - 1);
    WithoutAt(o, i, k + 1);
  }

  lemma {:induction false} BypassNode(links: map<nat, Node>, head: nat, o: seq<nat>, i: nat, k: nat)
    requires Chain(links, head, o) && i < |o| && k < |o| - 1
    ensures o[i] in links && Linked(Bypass(links, o[i]), Without(o, i), k)
  {
    var j := if k < i then k else k + 1;
    assert Linked(links, o, i) && Linked(links, o, j);
    NeighboursAfter(o, i, k);
    BypassAt(links, o[i], o[j]);
  }

  lemma {:induction false} WithoutDistinct(o: seq<nat>, i: nat)
    requires Distinct(o) && i < |o|
    ensures Distinct(Without(o, i)) && o[i] !in Without(o, i)
  {
  }

  lemma {:induction false} WithoutAt(o: seq<nat>, i: nat, k: int)
    requires i < |o|
    ensures At(Without(o, i), k) == At(o, if k < i then k else k + 1)
  {
  }

  lemma {:induction false} ChainFrame(links: map<nat, Node>, after: map<nat, Node>, head: nat, o: seq<nat>)
    requires Chain(links, head, o)
    requires forall n :: n in o && n in links ==> n in after && after[n] == links[n]
    ensures Chain(after, head, o)
  {
    forall i: nat | i < |o| ensures Linked(after, o, i) { assert Linked(links, o, i) && o[i] in o; }
  }

  // ------------------------------------------------------------------ the whole state

  predicate ListOf(h: Heap, s: Shape, g: nat) {
    g in h.groups && g in s.ps && Chain(h.links, h.groups[g].head, s.ps[g])
  }

  predicate Lists(h: Heap, s: Shape) {
    && Chain(h.links, h.first, s.gs)
    && h.groups.Keys == s.ps.Keys
    && (forall g :: g in s.ps ==> ListOf(h, s, g))
  }

  /** A program is in the list of the group its group pointer names, and in no other. */
  predicate Members(h: Heap, s: Shape) {
    && (forall g :: g in s.gs ==> g in s.ps)
    && (forall g :: g in s.ps ==> Owned(h, s, g))
    && (forall p :: p in h.programs ==> Filed(h, s, p))
  }

  predicate Owned(h: Heap, s: Shape, g: nat) {
    g in s.ps && forall p :: p in s.ps[g] ==> p in h.programs && h.programs[p].owner == g
  }

  predicate Filed(h: Heap, s: Shape, p: nat) {
    p in h.programs && h.programs[p].owner in s.ps && p in s.ps[h.programs[p].owner]
  }

  ghost predicate Handles(h: Heap) {
    && (forall n :: n in h.links <==> n in h.groups || n in h.programs)
    && (forall n :: n in h.groups ==> n !in h.programs)
    && 0 < h.unused && (forall n :: n in h.links ==> 0 < n < h.unused)
  }

  /** Sequence numbers grow along the list of groups. */
  predicate Numbered(h: Heap, gs: seq<nat>) {
    && (forall i :: 0 <= i < |gs| ==> gs[i] in h.groups)
    && (forall i, j :: 0 <= i < j < |gs| ==> h.groups[gs[i]].seqnum < h.groups[gs[j]].seqnum)
  }

  /** Active group and active programs are none or alive. */
  predicate Actives(h: Heap, s: Shape) {
    && (h.active == 0 || h.active in s.gs)
    && (forall g :: g in h.groups ==> ActiveIn(h, s, g))
  }

  predicate ActiveIn(h: Heap, s: Shape, g: nat) {
    g in h.groups && g in s.ps && (h.groups[g].active == 0 || h.groups[g].active in s.ps[g])
  }

  ghost predicate Rep(h: Heap, s: Shape) {
    Lists(h, s) && Members(h, s) && Handles(h) && Numbered(h, s.gs) && Actives(h, s)
  }

  /** Links in memory together with what they stand for. */
  datatype State = State(h: Heap, s: Shape)

  type World = w: State | Rep(w.h, w.s) witness State(Heap(map[], map[], map[], 0, 0, 1), Shape([], map[]))
}
