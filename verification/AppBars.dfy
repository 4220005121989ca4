/**
 Application bars: each bar asks for a rectangle along a screen edge, gets what the bars
 added before it leave, and the others are told when something moved.
 */
module AppBars {
  import opened Basics

  const LEFT: nat := 0
  const TOP: nat := 1
  const RIGHT: nat := 2
  const BOTTOM: nat := 3

  datatype Rect = Rect(left: int, top: int, right: int, bottom: int)

  const EMPTY := Rect(0, 0, 0, 0)

  datatype Bar = Bar(hwnd: nat, callback: nat, edge: nat, rc: Rect, reserved: bool)

  /** What happened to a bar: it was sent ABN_POSCHANGED, or it completed ABM_SETPOS. */
  datatype Mark = Notified(hwnd: nat) | Placed(hwnd: nat)

  datatype State = State(bars: seq<Bar>, log: seq<Mark>)

  datatype Message =
    | New(hwnd: nat, callback: nat)
    | Remove(hwnd: nat)
    | QueryPos(hwnd: nat, rc: Rect)
    | SetPos(hwnd: nat, edge: nat, rc: Rect)

  predicate In(r: Rect, x: int, y: int) {
    r.left <= x < r.right && r.top <= y < r.bottom
  }

  ghost predicate Disjoint(a: Rect, b: Rect) {
    forall x, y :: !(In(a, x, y) && In(b, x, y))
  }

  ghost predicate Within(a: Rect, b: Rect) {
    forall x, y :: In(a, x, y) ==> In(b, x, y)
  }

  function Min(a: int, b: int): int { if a < b then a else b }

  // --------------------------------------------------------------------- operations

  function Find(bars: seq<Bar>, hwnd: nat): (i: nat)
    ensures i <= |bars|
    ensures i < |bars| ==> bars[i].hwnd == hwnd
    ensures forall k :: 0 <= k < i ==> bars[k].hwnd != hwnd
  {
    if bars == [] || bars[0].hwnd == hwnd then 0 else 1 + Find(bars[1..], hwnd)
  }

  /** Moves in the side that corresponds to the other bar's edge. */
  function ClipOne(b: Bar, r: Rect): Rect {
    if !b.reserved then r
    else if b.edge == BOTTOM then r.(bottom := Min(r.bottom, b.rc.top))
    else if b.edge == LEFT then r.(left := Max(r.left, b.rc.right))
    else if b.edge == RIGHT then r.(right := Min(r.right, b.rc.left))
    else if b.edge == TOP then r.(top := Max(r.top, b.rc.bottom))
    else r
  }

  /** Clips by each of these bars in turn. */
  function Clip(bars: seq<Bar>, r: Rect): Rect
    decreases |bars|
  {
    if bars == [] then r else Clip(bars[1..], ClipOne(bars[0], r))
  }

  /** The bars added before this one; all of them for a window that has none. */
  function Earlier(bars: seq<Bar>, hwnd: nat): seq<Bar> {
    bars[..Find(bars, hwnd)]
  }

  function Notices(bars: seq<Bar>, hwnd: nat): seq<Mark> {
    if bars == [] then []
    else (if bars[0].hwnd != hwnd then [Notified(bars[0].hwnd)] else []) + Notices(bars[1..], hwnd)
  }

  function Place(s: State, i: nat, edge: nat, r: Rect): State
    requires i < |s.bars|
  {
    var b := s.bars[i];
    State(s.bars[i := b.(edge := edge, rc := r, reserved := true)],
          s.log + (if r != b.rc then Notices(s.bars, b.hwnd) else []) + [Placed(b.hwnd)])
  }

  function Step(s: State, m: Message): State {
    match m
    case New(hwnd, callback) =>
      if Find(s.bars, hwnd) < |s.bars| then s
      else s.(bars := s.bars + [Bar(hwnd, callback, 0, EMPTY, false)])
    case Remove(hwnd) =>
      var i := Find(s.bars, hwnd);
      if i == |s.bars| then s else
      var rest := s.bars[..i] + s.bars[i + 1..];
      State(rest, s.log + Notices(rest, hwnd))
    case QueryPos(_, _) => s
    case SetPos(hwnd, edge, rc) =>
      var i := Find(s.bars, hwnd);
      if edge > BOTTOM || i == |s.bars| then s else Place(s, i, edge, Clip(s.bars[..i], rc))
  }

  function Run(s: State, ms: seq<Message>): State
    decreases |ms|
  {
    if ms == [] then s else Run(Step(s, ms[0]), ms[1..])
  }

  // ------------------------------------------------------------------ fresh and stale

  /** The last thing that happened to the bar is that it was placed. */
  predicate Fresh(log: seq<Mark>, hwnd: nat)
    decreases |log|
  {
    log != [] &&
    var last := log[|log| - 1];
    if last.hwnd == hwnd then last.Placed? else Fresh(log[..|log| - 1], hwnd)
  }

  predicate Mentions(log: seq<Mark>, hwnd: nat) {
    exists m :: m in log && m.hwnd == hwnd
  }

  lemma {:induction false} FreshAfter(a: seq<Mark>, b: seq<Mark>, hwnd: nat)
    ensures Fresh(a + b, hwnd) <==> if Mentions(b, hwnd) then Fresh(b, hwnd) else Fresh(a, hwnd)
    decreases |b|
  {
    if b == [] {
      assert a + b == a;
    } else {
      var n := |b| - 1;
      assert (a + b)[..|a + b| - 1] == a + b[..n] && (a + b)[|a + b| - 1] == b[n];
      assert b[n] in b;
      if b[n].hwnd != hwnd {
        FreshAfter(a, b[..n], hwnd);
        assert b == b[..n] + [b[n]];
        assert Mentions(b, hwnd) <==> Mentions(b[..n], hwnd);
      }
    }
  }

  lemma {:induction false} NoticesStale(bars: seq<Bar>, hwnd: nat, other: nat)
    requires exists b :: b in bars && b.hwnd == other
    ensures Mentions(Notices(bars, hwnd), other) <==> other != hwnd
    ensures !Fresh(Notices(bars, hwnd), other)
  {
    NoticesMention(bars, hwnd, other);
    NoticesNotFresh(Notices(bars, hwnd), other);
  }

  lemma {:induction false} NoticesMention(bars: seq<Bar>, hwnd: nat, other: nat)
    ensures forall m :: m in Notices(bars, hwnd) ==> m.Notified? && m.hwnd != hwnd
    ensures (exists b :: b in bars && b.hwnd == other) && other != hwnd ==> Notified(other) in Notices(bars, hwnd)
  {
    if bars != [] { NoticesMention(bars[1..], hwnd, other); }
  }

  lemma {:induction false} NoticesNotFresh(log: seq<Mark>, hwnd: nat)
    requires forall m :: m in log ==> m.Notified?
    ensures !Fresh(log, hwnd)
    decreases |log|
  {
    if log != [] {
      assert log[|log| - 1] in log;
      NoticesNotFresh(log[..|log| - 1], hwnd);
    }
  }

  // ----------------------------------------------------------------------- clipping

  lemma {:induction false} ClipOneWithin(b: Bar, r: Rect)
    ensures Within(ClipOne(b, r), r)
    ensures b.reserved && b.edge <= BOTTOM ==> Disjoint(b.rc, ClipOne(b, r))
  {
  }

  lemma {:induction false} ClipWithin(bars: seq<Bar>, r: Rect)
    ensures Within(Clip(bars, r), r)
    decreases |bars|
  {
    if bars != [] {
      ClipOneWithin(bars[0], r);
      ClipWithin(bars[1..], ClipOne(bars[0], r));
    }
  }

  /** What is left after clipping meets none of the reserved bars. */
  lemma {:induction false} ClipDisjoint(bars: seq<Bar>, r: Rect, i: nat)
    requires i < |bars| && bars[i].reserved && bars[i].edge <= BOTTOM
    ensures Disjoint(bars[i].rc, Clip(bars, r))
    decreases |bars|
  {
    ClipOneWithin(bars[0], r);
    if i == 0 {
      ClipWithin(bars[1..], ClipOne(bars[0], r));
    } else {
      ClipDisjoint(bars[1..], ClipOne(bars[0], r), i - 1);
    }
  }

  /** On which side of a reserved bar a point may lie: right of a left bar, left of a right one, and so on. */
  predicate Clear(b: Bar, x: int, y: int) {
    b.reserved ==>
      && (b.edge == LEFT ==> x >= b.rc.right) && (b.edge == RIGHT ==> x < b.rc.left)
      && (b.edge == TOP ==> y >= b.rc.bottom) && (b.edge == BOTTOM ==> y < b.rc.top)
  }

  /** Exactly the points of the wish that are clear of all these bars. */
  ghost predicate LeftOver(bars: seq<Bar>, wish: Rect, r: Rect) {
    forall x, y :: In(r, x, y) <==> In(wish, x, y) && forall i :: 0 <= i < |bars| ==> Clear(bars[i], x, y)
  }

  lemma {:induction false} ClipPoint(bars: seq<Bar>, r: Rect, x: int, y: int)
    ensures In(Clip(bars, r), x, y) <==> In(r, x, y) && forall i :: 0 <= i < |bars| ==> Clear(bars[i], x, y)
    decreases |bars|
  {
    if bars != [] {
      ClipPoint(bars[1..], ClipOne(bars[0], r), x, y);
      assert forall i :: 1 <= i < |bars| ==> bars[i] == bars[1..][i - 1];
      assert forall i :: 0 <= i < |bars| - 1 ==> bars[1..][i] == bars[i + 1];
    }
  }

  /** What clipping leaves of a wish. */
  lemma {:induction false} ClipIs(bars: seq<Bar>, wish: Rect)
    ensures LeftOver(bars, wish, Clip(bars, wish))
  {
    forall x, y ensures In(Clip(bars, wish), x, y) <==> In(wish, x, y) && forall i :: 0 <= i < |bars| ==> Clear(bars[i], x, y) {
      ClipPoint(bars, wish, x, y);
    }
  }

  /** Each side by itself, also where nothing is left: it moves in as far as the bars of its own edge demand. */
  lemma {:induction false} ClipSides(bars: seq<Bar>, wish: Rect, v: int)
    ensures var r := Clip(bars, wish);
      && (r.left <= v <==> wish.left <= v && forall i :: 0 <= i < |bars| && bars[i].reserved && bars[i].edge == LEFT ==> bars[i].rc.right <= v)
      && (v <= r.right <==> v <= wish.right && forall i :: 0 <= i < |bars| && bars[i].reserved && bars[i].edge == RIGHT ==> v <= bars[i].rc.left)
      && (r.top <= v <==> wish.top <= v && forall i :: 0 <= i < |bars| && bars[i].reserved && bars[i].edge == TOP ==> bars[i].rc.bottom <= v)
      && (v <= r.bottom <==> v <= wish.bottom && forall i :: 0 <= i < |bars| && bars[i].reserved && bars[i].edge == BOTTOM ==> v <= bars[i].rc.top)
    decreases |bars|
  {
    if bars != [] {
      ClipSides(bars[1..], ClipOne(bars[0], wish), v);
      assert forall i :: 1 <= i < |bars| ==> bars[i] == bars[1..][i - 1];
      assert forall i :: 0 <= i < |bars| - 1 ==> bars[1..][i] == bars[i + 1];
    }
  }

  /** A left bar at (0, 0, 100, 600) cuts a strip along the bottom at its right side. */
  lemma {:induction false} ClipExample(hwnd: nat)
    ensures Clip([Bar(hwnd, 0, LEFT, Rect(0, 0, 100, 600), true)], Rect(0, 570, 800, 600)) == Rect(100, 570, 800, 600)
  {
    var b := Bar(hwnd, 0, LEFT, Rect(0, 0, 100, 600), true);
    assert [b][1..] == [];
  }

  /** How far one rectangle has been moved in from another. */
  predicate Inside(a: Rect, b: Rect) {
    a.left >= b.left && a.top >= b.top && a.right <= b.right && a.bottom <= b.bottom
  }

  lemma {:induction false} ClipInside(bars: seq<Bar>, r: Rect)
    ensures Inside(Clip(bars, r), r)
    decreases |bars|
  {
    if bars != [] { ClipInside(bars[1..], ClipOne(bars[0], r)); }
  }

  lemma {:induction false} ClipUnmoved(bars: seq<Bar>, r: Rect, i: nat)
    requires i < |bars|
    ensures ClipOne(bars[i], Clip(bars, r)) == Clip(bars, r)
    decreases |bars|
  {
    if i == 0 {
      ClipInside(bars[1..], ClipOne(bars[0], r));
    } else {
      ClipUnmoved(bars[1..], ClipOne(bars[0], r), i - 1);
    }
  }

  lemma {:induction false} ClipFixed(bars: seq<Bar>, r: Rect)
    requires forall i :: 0 <= i < |bars| ==> ClipOne(bars[i], r) == r
    ensures Clip(bars, r) == r
    decreases |bars|
  {
    if bars != [] {
      assert forall i :: 0 <= i < |bars| - 1 ==> bars[1..][i] == bars[i + 1];
      ClipFixed(bars[1..], r);
    }
  }

  /** A bar that sets the position a query gave it gets exactly that position. */
  lemma {:induction false} QueryThenSet(bars: seq<Bar>, r: Rect)
    ensures Clip(bars, Clip(bars, r)) == Clip(bars, r)
  {
    forall i | 0 <= i < |bars| ensures ClipOne(bars[i], Clip(bars, r)) == Clip(bars, r) { ClipUnmoved(bars, r, i); }
    ClipFixed(bars, Clip(bars, r));
  }

  // --------------------------------------------------------------------- the protocol

  ghost predicate Sound(bars: seq<Bar>) {
    && (forall i, j :: 0 <= i < j < |bars| ==> bars[i].hwnd != bars[j].hwnd)
    && (forall i :: 0 <= i < |bars| ==> if bars[i].reserved then bars[i].edge <= BOTTOM else bars[i].rc == EMPTY)
  }

  /** A fresh reserved bar meets none of the reserved bars added before it. */
  ghost predicate Kept(s: State, i: nat, j: nat)
    requires i < j < |s.bars|
  {
    s.bars[i].reserved && s.bars[j].reserved && Fresh(s.log, s.bars[j].hwnd) ==> Disjoint(s.bars[i].rc, s.bars[j].rc)
  }

  ghost predicate Inv(s: State) {
    Sound(s.bars) && forall i, j :: 0 <= i < j < |s.bars| ==> Kept(s, i, j)
  }

  lemma {:induction false} StaleAfterNotices(s: State, bars: seq<Bar>, hwnd: nat, tail: seq<Mark>, j: nat)
    requires j < |bars| && bars[j].hwnd != hwnd && !Mentions(tail, bars[j].hwnd)
    ensures !Fresh(s.log + Notices(bars, hwnd) + tail, bars[j].hwnd)
  {
    assert bars[j] in bars;
    NoticesStale(bars, hwnd, bars[j].hwnd);
    FreshAfter(s.log, Notices(bars, hwnd), bars[j].hwnd);
    FreshAfter(s.log + Notices(bars, hwnd), tail, bars[j].hwnd);
  }

  /** Placing bar i concerns the pair (a, b) in one of three ways. */
  lemma {:induction false} PlaceKept(s: State, i: nat, edge: nat, rc: Rect, a: nat, b: nat)
    requires Inv(s) && i < |s.bars| && edge <= BOTTOM && a < b < |s.bars|
    ensures Kept(Place(s, i, edge, Clip(s.bars[..i], rc)), a, b)
  {
    var r, hwnd := Clip(s.bars[..i], rc), s.bars[i].hwnd;
    var p := Place(s, i, edge, r);
    if b == i {
      if s.bars[a].reserved { ClipDisjoint(s.bars[..i], rc, a); }
    } else if r != s.bars[i].rc {
      StaleAfterNotices(s, s.bars, hwnd, [Placed(hwnd)], b);
    } else {
      assert s.log + [] == s.log;
      FreshAfter(s.log, [Placed(hwnd)], s.bars[b].hwnd);
      assert Kept(s, a, b);
    }
  }

  lemma {:induction false} PlaceKeeps(s: State, i: nat, edge: nat, rc: Rect)
    requires Inv(s) && i < |s.bars| && edge <= BOTTOM
    ensures Inv(Place(s, i, edge, Clip(s.bars[..i], rc)))
  {
    var p := Place(s, i, edge, Clip(s.bars[..i], rc));
    forall a, b | 0 <= a < b < |p.bars| ensures Kept(p, a, b) { PlaceKept(s, i, edge, rc, a, b); }
  }

  lemma {:induction false} RemoveKeeps(s: State, hwnd: nat)
    requires Inv(s)
    ensures Inv(Step(s, Remove(hwnd)))
  {
    var i := Find(s.bars, hwnd);
    if i < |s.bars| {
      var rest := s.bars[..i] + s.bars[i + 1..];
      var p := Step(s, Remove(hwnd));
      forall a, b | 0 <= a < b < |rest| ensures Kept(p, a, b) {
        assert s.log + Notices(rest, hwnd) + [] == s.log + Notices(rest, hwnd);
        StaleAfterNotices(s, rest, hwnd, [], b);
      }
    }
  }

  lemma {:induction false} StepKeeps(s: State, m: Message)
    requires Inv(s)
    ensures Inv(Step(s, m))
  {
    match m
    case New(hwnd, callback) =>
      var p := Step(s, m);
      forall a, b | 0 <= a < b < |p.bars| ensures Kept(p, a, b) {
        if b < |s.bars| { assert Kept(s, a, b); }
      }
    case Remove(hwnd) => RemoveKeeps(s, hwnd);
    case QueryPos(_, _) =>
    case SetPos(hwnd, edge, rc) =>
      var i := Find(s.bars, hwnd);
      if edge <= BOTTOM && i < |s.bars| { PlaceKeeps(s, i, edge, rc); }
  }

  lemma {:induction false} RunKeeps(s: State, ms: seq<Message>)
    requires Inv(s)
    ensures Inv(Run(s, ms))
    decreases |ms|
  {
    if ms != [] {
      StepKeeps(s, ms[0]);
      RunKeeps(Step(s, ms[0]), ms[1..]);
    }
  }

  /** In every run, once every bar has answered its last notification, no two reserved bars overlap. */
  lemma {:induction false} EveryRun(ms: seq<Message>)
    ensures var s := Run(State([], []), ms);
      && Inv(s)
      && ((forall b :: b in s.bars && b.reserved ==> Fresh(s.log, b.hwnd)) ==>
            forall i, j :: 0 <= i < j < |s.bars| && s.bars[i].reserved && s.bars[j].reserved ==>
              Disjoint(s.bars[i].rc, s.bars[j].rc))
  {
    RunKeeps(State([], []), ms);
    var s := Run(State([], []), ms);
    if forall b :: b in s.bars && b.reserved ==> Fresh(s.log, b.hwnd) {
      forall i, j | 0 <= i < j < |s.bars| && s.bars[i].reserved && s.bars[j].reserved
        ensures Disjoint(s.bars[i].rc, s.bars[j].rc)
      {
        assert Kept(s, i, j);
      }
    }
  }

  // ---------------------------------------------------------- what a message changes

  /** Every listed bar but one is told once, and nobody else is. */
  lemma {:induction false} NoticesOnce(bars: seq<Bar>, hwnd: nat, w: nat)
    requires forall i, j :: 0 <= i < j < |bars| ==> bars[i].hwnd != bars[j].hwnd
    ensures multiset(Notices(bars, hwnd))[Notified(w)] == if w != hwnd && Find(bars, w) < |bars| then 1 else 0
    ensures multiset(Notices(bars, hwnd))[Placed(w)] == 0
  {
    if bars != [] {
      NoticesOnce(bars[1..], hwnd, w);
      assert forall i :: 0 <= i < |bars| - 1 ==> bars[1..][i] == bars[i + 1];
      var first := if bars[0].hwnd != hwnd then [Notified(bars[0].hwnd)] else [];
      assert multiset(Notices(bars, hwnd)) == multiset(first) + multiset(Notices(bars[1..], hwnd));
      if bars[0].hwnd == w {
        var k := Find(bars[1..], w);
        if k < |bars| - 1 { assert bars[1..][k] == bars[k + 1]; }
      }
    }
  }

  /** A new bar comes last, with the bars listed before it; it reserves nothing yet. */
  lemma {:induction false} NewMeans(s: State, hwnd: nat, callback: nat)
    requires Find(s.bars, hwnd) == |s.bars|
    ensures var r := Step(s, New(hwnd, callback));
      && Earlier(r.bars, hwnd) == s.bars && Find(r.bars, hwnd) == |s.bars| == |r.bars| - 1 && r.log == s.log
      && !r.bars[|s.bars|].reserved && r.bars[|s.bars|].callback == callback
  {
    var bars := Step(s, New(hwnd, callback)).bars;
    var i := Find(bars, hwnd);
    assert bars[|s.bars|].hwnd == hwnd && bars[..|s.bars|] == s.bars;
    assert !(i < |s.bars|);
  }

  /** Removing a bar leaves all others as they are and in order, and tells each of them once. */
  lemma {:induction false} RemoveMeans(s: State, hwnd: nat, k: nat)
    requires Sound(s.bars) && Find(s.bars, hwnd) < |s.bars| && k < |s.bars| && s.bars[k].hwnd != hwnd
    ensures var i, r := Find(s.bars, hwnd), Step(s, Remove(hwnd));
      && |r.bars| == |s.bars| - 1 && r.bars[if k < i then k else k - 1] == s.bars[k] && Find(r.bars, hwnd) == |r.bars|
      && s.log <= r.log && multiset(r.log[|s.log|..])[Notified(s.bars[k].hwnd)] == 1
      && multiset(r.log[|s.log|..])[Notified(hwnd)] == 0
  {
    hide Notices, Find;
    var i, r := Find(s.bars, hwnd), Step(s, Remove(hwnd));
    BarDropped(s.bars, i, k);
    assert r.log[|s.log|..] == Notices(r.bars, hwnd);
    NoticesOnce(r.bars, hwnd, s.bars[k].hwnd);
    NoticesOnce(r.bars, hwnd, hwnd);
  }

  /** A list of different bars without the i-th: the k-th is still there, at its place or one before. */
  lemma {:induction false} BarDropped(bars: seq<Bar>, i: nat, k: nat)
    requires i < |bars| && k < |bars| && k != i && forall a, b :: 0 <= a < b < |bars| ==> bars[a].hwnd != bars[b].hwnd
    ensures var rest := bars[..i] + bars[i + 1..];
      && rest[if k < i then k else k - 1] == bars[k]
      && (forall a, b :: 0 <= a < b < |rest| ==> rest[a].hwnd != rest[b].hwnd)
      && Find(rest, bars[i].hwnd) == |rest| && Find(rest, bars[k].hwnd) < |rest|
  {
    var rest := bars[..i] + bars[i + 1..];
    forall a | 0 <= a < |rest| ensures rest[a] == bars[if a < i then a else a + 1] {
    }
  }

  /**
   A position that is set belongs to the bar alone: the edge asked for and what the bars before it
   leave of the wish. The others are told, each once, exactly when that is a new rectangle.
   */
  lemma {:induction false} SetPosMeans(s: State, hwnd: nat, edge: nat, wish: Rect, w: nat)
    requires Sound(s.bars) && Find(s.bars, hwnd) < |s.bars| && edge <= BOTTOM
    ensures var i, r := Find(s.bars, hwnd), Step(s, SetPos(hwnd, edge, wish));
      && |r.bars| == |s.bars| && (forall k :: 0 <= k < |s.bars| && k != i ==> r.bars[k] == s.bars[k])
      && r.bars[i].hwnd == hwnd && r.bars[i].edge == edge && r.bars[i].reserved && LeftOver(s.bars[..i], wish, r.bars[i].rc)
      && Fresh(r.log, hwnd) && s.log <= r.log
      && var told := r.bars[i].rc != s.bars[i].rc && w != hwnd && Find(s.bars, w) < |s.bars|;
         multiset(r.log[|s.log|..])[Notified(w)] == if told then 1 else 0
  {
    hide Notices, Clip, LeftOver, Fresh;
    var i, r := Find(s.bars, hwnd), Step(s, SetPos(hwnd, edge, wish));
    ClipIs(s.bars[..i], wish);
    NoticesOnce(s.bars, hwnd, w);
    var notices := if r.bars[i].rc != s.bars[i].rc then Notices(s.bars, hwnd) else [];
    assert r.log == s.log + notices + [Placed(hwnd)];
    LogGrows(s.log, notices, hwnd, w);
  }

  lemma {:induction false} LogGrows(log: seq<Mark>, notices: seq<Mark>, hwnd: nat, w: nat)
    ensures var r := log + notices + [Placed(hwnd)];
      log <= r && Fresh(r, hwnd) && multiset(r[|log|..])[Notified(w)] == multiset(notices)[Notified(w)]
  {
    var r := log + notices + [Placed(hwnd)];
    assert r[|log|..] == notices + [Placed(hwnd)] && r[|r| - 1] == Placed(hwnd);
  }

  // ----------------------------------------------------------------------- settling

  /** What a bar asks for whenever it answers. */
  datatype Wish = Wish(edge: nat, rc: Rect)

  predicate Wishes(s: State, ws: seq<Wish>) {
    |ws| == |s.bars| && forall i :: 0 <= i < |ws| ==> ws[i].edge <= BOTTOM
  }

  function Answer(s: State, ws: seq<Wish>, i: nat): (r: State)
    requires i < |s.bars| == |ws|
    ensures |r.bars| == |s.bars|
  {
    Place(s, i, ws[i].edge, Clip(s.bars[..i], ws[i].rc))
  }

  /** An answer is the message SetPos. */
  lemma {:induction false} AnswerIsSetPos(s: State, ws: seq<Wish>, i: nat)
    requires Wishes(s, ws) && i < |ws| && Sound(s.bars)
    ensures Answer(s, ws, i) == Step(s, SetPos(s.bars[i].hwnd, ws[i].edge, ws[i].rc))
  {
    var f := Find(s.bars, s.bars[i].hwnd);
    assert f <= i;
  }

  predicate Positions(order: seq<nat>, n: nat) {
    forall k :: 0 <= k < |order| ==> order[k] < n
  }

  /** The bars at these positions answer, one after the other. */
  function Answers(s: State, ws: seq<Wish>, order: seq<nat>): (r: State)
    requires |s.bars| == |ws| && Positions(order, |ws|)
    ensures |r.bars| == |s.bars|
    decreases |order|
  {
    if order == [] then s else Answers(Answer(s, ws, order[0]), ws, order[1..])
  }

  /** The first k bars have what the bars before them leave of their wishes. */
  ghost predicate Settled(bars: seq<Bar>, ws: seq<Wish>, k: nat) {
    k <= |bars| == |ws| &&
    forall i :: 0 <= i < k ==> bars[i].reserved && bars[i].edge == ws[i].edge && bars[i].rc == Clip(bars[..i], ws[i].rc)
  }

  lemma {:induction false} AnswerSettles(s: State, ws: seq<Wish>, i: nat, k: nat)
    requires i < |s.bars| && Settled(s.bars, ws, k)
    ensures var r := Answer(s, ws, i);
      && Settled(r.bars, ws, k) && (i == k ==> Settled(r.bars, ws, k + 1))
      && (i < k ==> r.bars == s.bars && r.log == s.log + [Placed(s.bars[i].hwnd)])
  {
    var r := Answer(s, ws, i);
    if i < k {
      assert r.bars == s.bars && s.log + [] == s.log;
    } else {
      assert forall j :: 0 <= j <= i ==> r.bars[..j] == s.bars[..j];
    }
  }

  lemma {:induction false} AnswersSettle(s: State, ws: seq<Wish>, order: seq<nat>, k: nat)
    requires Settled(s.bars, ws, k) && Positions(order, |ws|)
    ensures var r := Answers(s, ws, order);
      Settled(r.bars, ws, k) && (k in order ==> Settled(r.bars, ws, k + 1))
    decreases |order|
  {
    if order != [] {
      var i := order[0];
      AnswerSettles(s, ws, i, k);
      var next := if i == k then k + 1 else k;
      AnswersSettle(Answer(s, ws, i), ws, order[1..], next);
      if i == k && k in order[1..] { AnswersSettle(Answer(s, ws, i), ws, order[1..], k); }
    }
  }

  /** Once all bars are settled, answering changes nothing and only makes bars fresh. */
  lemma {:induction false} AnswersQuiet(s: State, ws: seq<Wish>, order: seq<nat>, j: nat)
    requires Settled(s.bars, ws, |ws|) && j < |ws| && Positions(order, |ws|)
    ensures var r := Answers(s, ws, order);
      r.bars == s.bars && (j in order || Fresh(s.log, s.bars[j].hwnd) ==> Fresh(r.log, s.bars[j].hwnd))
    decreases |order|
  {
    if order != [] {
      var i := order[0];
      AnswerSettles(s, ws, i, |ws|);
      FreshAfter(s.log, [Placed(s.bars[i].hwnd)], s.bars[j].hwnd);
      assert j in order ==> j == i || j in order[1..];
      AnswersQuiet(Answer(s, ws, i), ws, order[1..], j);
    }
  }

  predicate Round(order: seq<nat>, n: nat) {
    Positions(order, n) && forall i: nat :: i < n ==> i in order
  }

  function Rounds(s: State, ws: seq<Wish>, rounds: seq<seq<nat>>): (r: State)
    requires |s.bars| == |ws| && forall k :: 0 <= k < |rounds| ==> Round(rounds[k], |ws|)
    ensures |r.bars| == |s.bars|
    decreases |rounds|
  {
    if rounds == [] then s else assert Round(rounds[0], |ws|); Rounds(Answers(s, ws, rounds[0]), ws, rounds[1..])
  }

  lemma {:induction false} RoundsSettle(s: State, ws: seq<Wish>, rounds: seq<seq<nat>>, k: nat)
    requires Settled(s.bars, ws, k) && k + |rounds| == |ws| + 1 && forall k :: 0 <= k < |rounds| ==> Round(rounds[k], |ws|)
    ensures var r := Rounds(s, ws, rounds);
      Settled(r.bars, ws, |ws|) && forall j :: 0 <= j < |ws| ==> Fresh(r.log, r.bars[j].hwnd)
    decreases |rounds|
  {
    var first := Answers(s, ws, rounds[0]);
    AnswersSettle(s, ws, rounds[0], k);
    if k < |ws| {
      RoundsSettle(first, ws, rounds[1..], k + 1);
    } else {
      assert rounds[1..] == [];
      forall j | 0 <= j < |ws| ensures Fresh(first.log, first.bars[j].hwnd) { AnswersQuiet(s, ws, rounds[0], j); }
    }
  }

  lemma {:induction false} AnswersKeep(s: State, ws: seq<Wish>, order: seq<nat>)
    requires Inv(s) && Wishes(s, ws) && Positions(order, |ws|)
    ensures Inv(Answers(s, ws, order))
    decreases |order|
  {
    if order != [] {
      PlaceKeeps(s, order[0], ws[order[0]].edge, ws[order[0]].rc);
      AnswersKeep(Answer(s, ws, order[0]), ws, order[1..]);
    }
  }

  lemma {:induction false} RoundsKeep(s: State, ws: seq<Wish>, rounds: seq<seq<nat>>)
    requires Inv(s) && Wishes(s, ws) && forall k :: 0 <= k < |rounds| ==> Round(rounds[k], |ws|)
    ensures Inv(Rounds(s, ws, rounds))
    decreases |rounds|
  {
    if rounds != [] {
      AnswersKeep(s, ws, rounds[0]);
      RoundsKeep(Answers(s, ws, rounds[0]), ws, rounds[1..]);
    }
  }

  /** The windows of the bars, in list order. */
  function Windows(bars: seq<Bar>): (r: seq<nat>)
    ensures |r| == |bars| && forall i :: 0 <= i < |bars| ==> r[i] == bars[i].hwnd
  {
    seq(|bars|, i requires 0 <= i < |bars| => bars[i].hwnd)
  }

  /** The messages by which the bars at these positions answer. */
  function Messages(windows: seq<nat>, ws: seq<Wish>, order: seq<nat>): seq<Message>
    requires |windows| == |ws| && Positions(order, |ws|)
    decreases |order|
  {
    if order == [] then [] else
    [SetPos(windows[order[0]], ws[order[0]].edge, ws[order[0]].rc)] + Messages(windows, ws, order[1..])
  }

  /** The messages of whole rounds. */
  function RoundMessages(windows: seq<nat>, ws: seq<Wish>, rounds: seq<seq<nat>>): seq<Message>
    requires |windows| == |ws| && forall k :: 0 <= k < |rounds| ==> Round(rounds[k], |ws|)
    decreases |rounds|
  {
    if rounds == [] then [] else
    assert Round(rounds[0], |ws|);
    Messages(windows, ws, rounds[0]) + RoundMessages(windows, ws, rounds[1..])
  }

  lemma {:induction false} RunConcat(s: State, a: seq<Message>, b: seq<Message>)
    ensures Run(s, a + b) == Run(Run(s, a), b)
    decreases |a|
  {
    if a == [] {
      assert a + b == b;
    } else {
      assert (a + b)[1..] == a[1..] + b;
      RunConcat(Step(s, a[0]), a[1..], b);
    }
  }

  lemma {:induction false} AnswerWindows(s: State, ws: seq<Wish>, i: nat)
    requires i < |s.bars| == |ws|
    ensures Windows(Answer(s, ws, i).bars) == Windows(s.bars)
  {
  }

  lemma {:induction false} AnswersAreMessages(s: State, ws: seq<Wish>, order: seq<nat>)
    requires Inv(s) && Wishes(s, ws) && Positions(order, |ws|)
    ensures Answers(s, ws, order) == Run(s, Messages(Windows(s.bars), ws, order))
    ensures Windows(Answers(s, ws, order).bars) == Windows(s.bars)
    decreases |order|
  {
    if order != [] {
      var i, ms := order[0], Messages(Windows(s.bars), ws, order[1..]);
      AnswerIsSetPos(s, ws, i);
      AnswerWindows(s, ws, i);
      PlaceKeeps(s, i, ws[i].edge, ws[i].rc);
      AnswersAreMessages(Answer(s, ws, i), ws, order[1..]);
      var m := SetPos(s.bars[i].hwnd, ws[i].edge, ws[i].rc);
      assert ([m] + ms)[1..] == ms;
    }
  }

  lemma {:induction false} RoundsAreMessages(s: State, ws: seq<Wish>, rounds: seq<seq<nat>>)
    requires Inv(s) && Wishes(s, ws) && forall k :: 0 <= k < |rounds| ==> Round(rounds[k], |ws|)
    ensures Rounds(s, ws, rounds) == Run(s, RoundMessages(Windows(s.bars), ws, rounds))
    decreases |rounds|
  {
    if rounds != [] {
      assert Round(rounds[0], |ws|);
      var next := Answers(s, ws, rounds[0]);
      AnswersAreMessages(s, ws, rounds[0]);
      AnswersKeep(s, ws, rounds[0]);
      RoundsAreMessages(next, ws, rounds[1..]);
      RunConcat(s, Messages(Windows(s.bars), ws, rounds[0]), RoundMessages(Windows(s.bars), ws, rounds[1..]));
    }
  }

  /**
   Bars that keep answering with the same wishes settle: after one round of SetPos messages more
   than there are bars, in whatever order each round is sent, all bars are reserved, fresh and apart.
   */
  lemma {:induction false} BarsSettle(s: State, ws: seq<Wish>, rounds: seq<seq<nat>>)
    requires Inv(s) && Wishes(s, ws) && |rounds| == |ws| + 1 && forall k :: 0 <= k < |rounds| ==> Round(rounds[k], |ws|)
    ensures var r := Run(s, RoundMessages(Windows(s.bars), ws, rounds));
      && Windows(r.bars) == Windows(s.bars)
      && (forall j :: 0 <= j < |ws| ==> r.bars[j].reserved && Fresh(r.log, r.bars[j].hwnd))
      && (forall i, j :: 0 <= i < j < |ws| ==> Disjoint(r.bars[i].rc, r.bars[j].rc))
  {
    RoundsSettle(s, ws, rounds, 0);
    RoundsKeep(s, ws, rounds);
    RoundsAreMessages(s, ws, rounds);
    RoundsWindows(s, ws, rounds);
    var r := Rounds(s, ws, rounds);
    forall i, j | 0 <= i < j < |ws| ensures Disjoint(r.bars[i].rc, r.bars[j].rc) { assert Kept(r, i, j); }
  }

  lemma {:induction false} RoundsWindows(s: State, ws: seq<Wish>, rounds: seq<seq<nat>>)
    requires Inv(s) && Wishes(s, ws) && forall k :: 0 <= k < |rounds| ==> Round(rounds[k], |ws|)
    ensures Windows(Rounds(s, ws, rounds).bars) == Windows(s.bars)
    decreases |rounds|
  {
    if rounds != [] {
      assert Round(rounds[0], |ws|);
      AnswersAreMessages(s, ws, rounds[0]);
      AnswersKeep(s, ws, rounds[0]);
      RoundsWindows(Answers(s, ws, rounds[0]), ws, rounds[1..]);
    }
  }

  // ---------------------------------------------------------------- the message window

  class AppBarList {
    var bars: seq<Bar>
    ghost var log: seq<Mark>

    ghost function S(): State
      reads this
    {
      State(bars, log)
    }

    constructor ()
      ensures S() == State([], []) && Inv(S())
    {
      bars, log := [], [];
    }

    /** get_appbar */
    method GetAppBar(hwnd: nat) returns (i: nat)
      ensures i == Find(bars, hwnd)
    {
      i := 0;
      while i < |bars| && bars[i].hwnd != hwnd
        invariant 0 <= i <= |bars| && forall k :: 0 <= k < i ==> bars[k].hwnd != hwnd
      {
        i := i + 1;
      }
    }

    /** appbar_cliprect */
    method ClipRect(hwnd: nat, rect: Rect) returns (r: Rect)
      ensures r == Clip(Earlier(bars, hwnd), rect)
    {
      r := rect;
      var i := 0;
      ghost var n := Find(bars, hwnd);
      assert bars[0..n] == bars[..n];
      while i < |bars| && bars[i].hwnd != hwnd
        invariant 0 <= i <= n && Clip(Earlier(bars, hwnd), rect) == Clip(bars[i..n], r)
      {
        assert bars[i..n][1..] == bars[i + 1..n];
        r := ClipOne(bars[i], r);
        i := i + 1;
      }
    }

    /** send_poschanged */
    method SendPosChanged(hwnd: nat)
      modifies this`log
      ensures log == old(log) + Notices(bars, hwnd)
    {
      var i := 0;
      assert bars[0..] == bars;
      while i < |bars|
        invariant 0 <= i <= |bars| && log + Notices(bars[i..], hwnd) == old(log) + Notices(bars, hwnd)
      {
        assert bars[i..][1..] == bars[i + 1..];
        if bars[i].hwnd != hwnd {
          assert log + ([Notified(bars[i].hwnd)] + Notices(bars[i + 1..], hwnd)) ==
                 (log + [Notified(bars[i].hwnd)]) + Notices(bars[i + 1..], hwnd);
          log := log + [Notified(bars[i].hwnd)];
        }
        i := i + 1;
      }
    }

    /** handle_appbarmessage: the answer and the rectangle that is sent back. */
    method Handle(m: Message) returns (ok: bool, rc: Rect)
      requires Inv(S())
      modifies this
      ensures S() == Step(old(S()), m) && Inv(S())
      ensures ok <==> !(m.New? && Find(old(bars), m.hwnd) < |old(bars)|)
      ensures m.QueryPos? ==> LeftOver(Earlier(bars, m.hwnd), m.rc, rc)
      ensures m.SetPos? && m.edge <= BOTTOM && Find(bars, m.hwnd) < |bars| ==>
        rc == bars[Find(bars, m.hwnd)].rc && LeftOver(Earlier(bars, m.hwnd), m.rc, rc)
    {
      StepKeeps(S(), m);
      if m.QueryPos? || m.SetPos? { ClipIs(Earlier(bars, m.hwnd), m.rc); }
      ok, rc := true, EMPTY;
      var i := GetAppBar(m.hwnd);
      match m
      case New(hwnd, callback) =>
        if i < |bars| { ok := false; return; }
        bars := bars + [Bar(hwnd, callback, 0, EMPTY, false)];
      case Remove(hwnd) =>
        if i < |bars| {
          bars := bars[..i] + bars[i + 1..];
          SendPosChanged(hwnd);
        }
      case QueryPos(hwnd, r) =>
        rc := ClipRect(hwnd, r);
      case SetPos(hwnd, edge, r) =>
        if edge > BOTTOM || i == |bars| { return; }
        rc := SetPosition(i, edge, r);
    }

    /** ABM_SETPOS of a listed bar */
    method SetPosition(i: nat, edge: nat, r: Rect) returns (rc: Rect)
      requires i < |bars| && i == Find(bars, bars[i].hwnd)
      modifies this
      ensures S() == Place(old(S()), i, edge, Clip(old(bars)[..i], r)) && rc == bars[i].rc && Find(bars, bars[i].hwnd) == i
    {
      rc := ClipRect(bars[i].hwnd, r);
      if rc != bars[i].rc {
        SendPosChanged(bars[i].hwnd);
      } else {
        assert log + [] == log;
      }
      log := log + [Placed(bars[i].hwnd)];
      bars := bars[i := bars[i].(edge := edge, rc := rc, reserved := true)];
      assert forall k :: 0 <= k < i ==> bars[k].hwnd != bars[i].hwnd;
    }
  }
}
