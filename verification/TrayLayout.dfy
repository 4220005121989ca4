/**
 Where the tray puts things: icons in their slots, and taskbar buttons in the room the
 icons leave.
 */
module TrayLayout {
  import opened Basics
  import opened TrayModel

  const MIN_DISPLAYED: nat := 8

  datatype Metrics = Metrics(iconWidth: nat, trayWidth: int, startWidth: nat, buttonWidth: nat)

  // ------------------------------------------------------------------------ icons

  /** get_icon_pos: from the right in the taskbar, from the left in the standalone tray. */
  function IconLeft(m: Metrics, taskbar: bool, display: int): int {
    if taskbar then m.trayWidth - m.iconWidth * (display + 1) else m.iconWidth * display
  }

  function StandaloneWidth(m: Metrics, shown: nat): nat {
    m.iconWidth * if shown > MIN_DISPLAYED then shown else MIN_DISPLAYED
  }

  /** The room left of the icons in the taskbar. */
  function ButtonsRight(m: Metrics, shown: nat): int {
    m.trayWidth - shown * m.iconWidth
  }

  predicate Apart(a: int, aWidth: int, b: int, bWidth: int) {
    a + aWidth <= b || b + bWidth <= a
  }

  lemma {:induction false} Scaled(a: int, b: int, w: nat)
    requires a <= b
    ensures a * w <= b * w
  {
  }

  /** Different slots are different places. */
  lemma {:induction false} SlotsApart(m: Metrics, taskbar: bool, a: int, b: int)
    requires a != b
    ensures Apart(IconLeft(m, taskbar, a), m.iconWidth, IconLeft(m, taskbar, b), m.iconWidth)
  {
    if a < b { Scaled(a + 1, b, m.iconWidth); } else { Scaled(b + 1, a, m.iconWidth); }
  }

  /** Icons never overlap, and lie inside the tray window or right of the taskbar buttons. */
  lemma {:induction false} IconsApart(t: Tray, m: Metrics, i: nat, j: nat)
    requires Inv(t) && i < |t.icons| && j < |t.icons| && i != j
    requires t.icons[i].display != HIDDEN && t.icons[j].display != HIDDEN
    ensures var x, y := IconLeft(m, t.taskbar, t.icons[i].display), IconLeft(m, t.taskbar, t.icons[j].display);
      && Apart(x, m.iconWidth, y, m.iconWidth)
      && (if t.taskbar then ButtonsRight(m, t.shown) <= x && x + m.iconWidth <= m.trayWidth
          else 0 <= x && x + m.iconWidth <= StandaloneWidth(m, t.shown))
  {
    var d := t.icons[i].display;
    assert d != t.icons[j].display;
    SlotsApart(m, t.taskbar, d, t.icons[j].display);
    Scaled(d + 1, t.shown, m.iconWidth);
    Scaled(0, d, m.iconWidth);
    Scaled(t.shown, if t.shown > MIN_DISPLAYED then t.shown else MIN_DISPLAYED, m.iconWidth);
    assert m.iconWidth * (d + 1) == (d + 1) * m.iconWidth == d * m.iconWidth + m.iconWidth;
  }

  /** In the taskbar slot 0 is at the right end and each next slot to its left; in the tray window slot 0 is at the left end. */
  lemma {:induction false} SlotOrder(m: Metrics, d: nat)
    ensures IconLeft(m, true, 0) + m.iconWidth == m.trayWidth && IconLeft(m, true, d + 1) + m.iconWidth == IconLeft(m, true, d)
    ensures IconLeft(m, false, 0) == 0 && IconLeft(m, false, d + 1) == IconLeft(m, false, d) + m.iconWidth
  {
    assert m.iconWidth * (d + 2) == m.iconWidth * (d + 1) + m.iconWidth;
    assert m.iconWidth * (d + 1) == m.iconWidth * d + m.iconWidth;
  }

  // ---------------------------------------------------------------- taskbar buttons

  datatype Button = StartButton | WindowButton(visible: bool)

  /** A shown button's left edge and width. */
  datatype Place = Gone | At(left: int, width: int)

  function Starts(bs: seq<Button>): nat {
    if bs == [] then 0 else (if bs[0].StartButton? then 1 else 0) + Starts(bs[1..])
  }

  /** Visible windows among the buttons. */
  function Visible(bs: seq<Button>): nat {
    if bs == [] then 0 else (if bs[0] == WindowButton(true) then 1 else 0) + Visible(bs[1..])
  }

  lemma {:induction false} CountsOne(bs: seq<Button>, k: nat)
    requires k < |bs|
    ensures Starts(bs[..k + 1]) == Starts(bs[..k]) + if bs[k].StartButton? then 1 else 0
    ensures Visible(bs[..k + 1]) == Visible(bs[..k]) + if bs[k] == WindowButton(true) then 1 else 0
  {
    if k == 0 {
      assert bs[..0] == [] && bs[..1] == [bs[0]];
    } else {
      CountsOne(bs[1..], k - 1);
      assert bs[..k + 1][1..] == bs[1..][..k] && bs[..k][1..] == bs[1..][..k - 1];
    }
  }

  lemma {:induction false} QuotientBounds(a: int, b: nat)
    requires b > 0
    ensures var q := Quotient(a, b); if a >= 0 then q * b <= a < q * b + b else q <= 0
  {
  }

  /** The width all buttons get: shrunk when space is tight, but not below a quarter. */
  function ShrunkWidth(full: nat, count: nat, space: int): (w: int)
    ensures w >= 0
  {
    if count > 0 && count * full > space then
      var share := Quotient(space, count);
      if full / 4 > share then full / 4 else share
    else full
  }

  function Space(m: Metrics, shown: nat, bs: seq<Button>): int {
    ButtonsRight(m, shown) - Starts(bs) * m.startWidth
  }

  function WidthFor(m: Metrics, shown: nat, bs: seq<Button>): nat {
    ShrunkWidth(m.buttonWidth, Visible(bs), Space(m, shown, bs))
  }

  /** What the layout of a button should be, from its rank among the visible windows. */
  function PlaceFor(m: Metrics, shown: nat, bs: seq<Button>, k: nat): Place
    requires k < |bs|
  {
    var w, rank := WidthFor(m, shown, bs), Visible(bs[..k]);
    match bs[k]
    case StartButton => At(Starts(bs[..k]) * m.startWidth, m.startWidth)
    case WindowButton(visible) =>
      if visible && (rank + 1) * w <= Space(m, shown, bs) then At(Starts(bs) * m.startWidth + rank * w, w) else Gone
  }

  lemma {:induction false} ShrunkFits(full: nat, count: nat, space: int)
    requires count > 0
    ensures count * ShrunkWidth(full, count, space) <= space <==> count * (full / 4) <= space
  {
    var w := ShrunkWidth(full, count, space);
    if count * full > space {
      var share := Quotient(space, count);
      QuotientBounds(space, count);
      assert full / 4 <= w;
      Scaled(full / 4, w, count);
      if space >= 0 { assert count * share == share * count <= space; }
    } else {
      Scaled(full / 4, full, count);
    }
  }

  lemma {:induction false} VisibleBound(bs: seq<Button>, k: nat)
    requires k <= |bs|
    ensures Visible(bs[..k]) <= Visible(bs)
    decreases |bs| - k
  {
    if k == |bs| {
      assert bs[..k] == bs;
    } else {
      CountsOne(bs, k);
      VisibleBound(bs, k + 1);
    }
  }

  lemma {:induction false} LastVisible(bs: seq<Button>, k: nat) returns (last: nat)
    requires k <= |bs| && Visible(bs[..k]) > 0
    ensures last < k && bs[last] == WindowButton(true) && Visible(bs[..last]) + 1 == Visible(bs[..k])
    decreases k
  {
    assert bs[..0] == [];
    CountsOne(bs, k - 1);
    if bs[k - 1] == WindowButton(true) { last := k - 1; } else { last := LastVisible(bs, k - 1); }
  }

  /** Every visible window has its button iff quarter-width buttons would fit. */
  lemma {:induction false} EveryWindowHasButton(m: Metrics, shown: nat, bs: seq<Button>)
    requires Visible(bs) > 0
    ensures (forall k :: 0 <= k < |bs| && bs[k] == WindowButton(true) ==> PlaceFor(m, shown, bs, k).At?)
      <==> Visible(bs) * (m.buttonWidth / 4) <= Space(m, shown, bs)
  {
    var w, n, space := WidthFor(m, shown, bs), Visible(bs), Space(m, shown, bs);
    ShrunkFits(m.buttonWidth, n, space);
    if n * w <= space {
      forall k | 0 <= k < |bs| && bs[k] == WindowButton(true) ensures PlaceFor(m, shown, bs, k).At? {
        CountsOne(bs, k);
        VisibleBound(bs, k + 1);
        Scaled(Visible(bs[..k]) + 1, n, w);
      }
    } else {
      assert bs[..|bs|] == bs;
      var last := LastVisible(bs, |bs|);
      assert PlaceFor(m, shown, bs, last).Gone?;
    }
  }

  /** Buttons of different windows never overlap, nor reach into the icons. */
  lemma {:induction false} ButtonsApart(m: Metrics, shown: nat, bs: seq<Button>, j: nat, k: nat)
    requires j < k < |bs| && bs[j].WindowButton? && bs[k].WindowButton?
    requires PlaceFor(m, shown, bs, j).At? && PlaceFor(m, shown, bs, k).At?
    ensures var a, b := PlaceFor(m, shown, bs, j), PlaceFor(m, shown, bs, k);
      a.left + a.width <= b.left && b.left + b.width <= ButtonsRight(m, shown)
  {
    var w, a, b := WidthFor(m, shown, bs), Visible(bs[..j]), Visible(bs[..k]);
    CountsOne(bs, j);
    VisibleBound(bs[..k], j + 1);
    assert bs[..k][..j + 1] == bs[..j + 1];
    Scaled(a + 1, b, w);
    assert (a + 1) * w == a * w + w && (b + 1) * w == b * w + w;
  }

  /** The buttons of all windows that have one are equally wide, side by side and in list order, behind the start buttons. */
  lemma {:induction false} ButtonsSideBySide(m: Metrics, shown: nat, bs: seq<Button>, j: nat, k: nat)
    requires j < k < |bs| && bs[j] == WindowButton(true) && bs[k] == WindowButton(true)
    requires forall i :: j < i < k ==> bs[i] != WindowButton(true)
    requires PlaceFor(m, shown, bs, k).At?
    ensures var a, b := PlaceFor(m, shown, bs, j), PlaceFor(m, shown, bs, k);
      a.At? && a.width == b.width && b.left == a.left + a.width
    ensures (forall i :: 0 <= i < j ==> bs[i] != WindowButton(true)) ==>
      PlaceFor(m, shown, bs, j).At? && PlaceFor(m, shown, bs, j).left == Starts(bs) * m.startWidth
  {
    var w, a, b := WidthFor(m, shown, bs), Visible(bs[..j]), Visible(bs[..k]);
    CountsOne(bs, j);
    NoneBetween(bs, j + 1, k);
    assert (a + 1) * w == a * w + w && (b + 1) * w == b * w + w;
    if forall i :: 0 <= i < j ==> bs[i] != WindowButton(true) {
      NoneBetween(bs, 0, j);
      assert bs[..0] == [];
    }
  }

  lemma {:induction false} NoneBetween(bs: seq<Button>, i: nat, j: nat)
    requires i <= j <= |bs| && forall k :: i <= k < j ==> bs[k] != WindowButton(true)
    ensures Visible(bs[..j]) == Visible(bs[..i])
    decreases j - i
  {
    if i < j {
      CountsOne(bs, i);
      NoneBetween(bs, i + 1, j);
    }
  }

  /** Buttons have their full width when all fit; otherwise they share the room, but none is below a quarter of it. */
  lemma {:induction false} WidthShared(m: Metrics, shown: nat, bs: seq<Button>)
    requires Visible(bs) > 0
    ensures var w, n, space := WidthFor(m, shown, bs), Visible(bs), Space(m, shown, bs);
      && (n * m.buttonWidth <= space ==> w == m.buttonWidth)
      && (n * m.buttonWidth > space && w > m.buttonWidth / 4 ==> n * w <= space < n * (w + 1))
      && (n * (m.buttonWidth / 4) > space ==> w == m.buttonWidth / 4)
  {
    hide Visible, Space, ShrunkWidth;
    ShrunkShared(m.buttonWidth, Visible(bs), Space(m, shown, bs));
  }

  lemma {:induction false} ShrunkShared(full: nat, n: nat, space: int)
    requires n > 0
    ensures var w := ShrunkWidth(full, n, space);
      && (n * full <= space ==> w == full)
      && (n * full > space && w > full / 4 ==> n * w <= space < n * (w + 1))
      && (n * (full / 4) > space ==> w == full / 4)
  {
    hide Quotient;
    QuotientBounds(space, n);
    var share, quarter := Quotient(space, n), full / 4;
    assert n * share == share * n && n * (share + 1) == n * share + n;
    if n * quarter > space {
      Scaled(quarter, full, n);
      if share > quarter { Scaled(quarter, share, n); }
    }
  }

  /** sync_taskbar_buttons */
  method SyncButtons(m: Metrics, shown: nat, bs: seq<Button>) returns (places: seq<Place>)
    ensures |places| == |bs| && forall k :: 0 <= k < |bs| ==> places[k] == PlaceFor(m, shown, bs, k)
  {
    var pos, count, right := 0, 0, m.trayWidth - shown * m.iconWidth;
    var starts: seq<Place> := [];
    var i := 0;
    while i < |bs|
      invariant 0 <= i <= |bs| && |starts| == i
      invariant pos == Starts(bs[..i]) * m.startWidth && count == Visible(bs[..i])
      invariant forall k :: 0 <= k < i ==> starts[k] == if bs[k].StartButton? then PlaceFor(m, shown, bs, k) else Gone
    {
      CountsOne(bs, i);
      if bs[i].StartButton? {
        starts := starts + [At(pos, m.startWidth)];
        pos := pos + m.startWidth;
      } else {
        starts := starts + [Gone];
        if bs[i].visible { count := count + 1; }
      }
      i := i + 1;
    }
    assert bs[..i] == bs;
    var width: int := m.buttonWidth;
    if count > 0 && count * width > right - pos {
      var share := Quotient(right - pos, count);
      width := if m.buttonWidth / 4 > share then m.buttonWidth / 4 else share;
    }
    places := PlaceWindows(m, shown, bs, starts, pos, width, right);
  }

  /** The second pass: buttons side by side as long as there is room. */
  method PlaceWindows(m: Metrics, shown: nat, bs: seq<Button>, starts: seq<Place>, from: int, width: nat, right: int)
    returns (places: seq<Place>)
    requires |starts| == |bs| && from == Starts(bs) * m.startWidth
    requires width == WidthFor(m, shown, bs) && right == ButtonsRight(m, shown)
    requires forall k :: 0 <= k < |bs| ==> starts[k] == if bs[k].StartButton? then PlaceFor(m, shown, bs, k) else Gone
    ensures |places| == |bs| && forall k :: 0 <= k < |bs| ==> places[k] == PlaceFor(m, shown, bs, k)
  {
    places := [];
    var pos, i := from, 0;
    ghost var placed := 0;
    while i < |bs|
      invariant 0 <= i <= |bs| && |places| == i && pos == from + placed * width && 0 <= placed <= Visible(bs[..i])
      invariant placed < Visible(bs[..i]) ==> right - pos < width
      invariant forall k :: 0 <= k < i ==> places[k] == PlaceFor(m, shown, bs, k)
    {
      CountsOne(bs, i);
      ghost var rank := Visible(bs[..i]);
      Scaled(placed, rank, width);
      assert (placed + 1) * width == placed * width + width && (rank + 1) * width == rank * width + width;
      if bs[i].StartButton? {
        places := places + [starts[i]];
      } else if bs[i].visible && right - pos >= width {
        places := places + [At(pos, width)];
        pos := pos + width;
        placed := placed + 1;
      } else {
        places := places + [Gone];
      }
      i := i + 1;
    }
  }
}
