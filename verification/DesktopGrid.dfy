/**
 The desktop's launchers in a grid: finding the launcher under a point by division must
 agree with looking at every launcher's icon and title rectangle.
 */
module DesktopGrid {
  import opened Basics
  import opened WideText

  const BORDER: int := 4
  const PADDING: int := 4
  const TITLE_CHARS: int := 14

  datatype Rect = Rect(left: int, top: int, right: int, bottom: int)

  datatype Metrics = Metrics(size: int, perRow: int, iconX: int, iconY: int, iconWidth: int, iconHeight: int,
                             titleX: int, titleY: int, titleWidth: int, titleHeight: int)

  function Columns(screen: int, size: int): (n: int)
    requires size > 0
    ensures screen >= 0 ==> n > 0
  {
    var n := Quotient(screen, size);
    if n == 0 then 1 else n
  }

  /** The geometry initialize_launchers derives from the icon size, the font and the screen width. */
  function MetricsFor(iconWidth: int, iconHeight: int, charWidth: int, charHeight: int, screen: int): Metrics
    requires iconWidth > 0 && iconHeight > 0 && charWidth > 0 && charHeight > 0
  {
    var icon := Max(iconWidth, iconHeight);
    var titleHeight := charHeight * 2;
    var titleWidth := Max(charWidth * TITLE_CHARS, icon + PADDING + titleHeight);
    var size := BORDER + titleWidth + BORDER;
    Metrics(size, Columns(screen, size), Quotient(size - iconWidth, 2), BORDER + Quotient(icon - iconHeight, 2),
            iconWidth, iconHeight, BORDER, BORDER + icon + PADDING, titleWidth, titleHeight)
  }

  /** Both rectangles of a launcher lie inside its cell, their far edges included. */
  predicate Fits(m: Metrics) {
    && m.size > 0 && m.perRow > 0
    && 0 <= m.iconX && m.iconX + m.iconWidth < m.size && 0 <= m.iconY && m.iconY + m.iconHeight < m.size
    && 0 <= m.titleX && m.titleX + m.titleWidth < m.size && 0 <= m.titleY && m.titleY + m.titleHeight < m.size
  }

  lemma {:induction false} MetricsFit(iconWidth: int, iconHeight: int, charWidth: int, charHeight: int, screen: int)
    requires iconWidth > 0 && iconHeight > 0 && charWidth > 0 && charHeight > 0 && screen >= 0
    ensures Fits(MetricsFor(iconWidth, iconHeight, charWidth, charHeight, screen))
  {
    var icon := Max(iconWidth, iconHeight);
    var size := MetricsFor(iconWidth, iconHeight, charWidth, charHeight, screen).size;
    assert size >= icon + PADDING + 2 * charHeight + 2 * BORDER;
    Centred(size - iconWidth);
    Centred(icon - iconHeight);
  }

  lemma {:induction false} Centred(room: int)
    requires room >= 0
    ensures 0 <= Quotient(room, 2) <= room && (room > 0 ==> Quotient(room, 2) < room)
  {
  }

  // ------------------------------------------------------------------------ launchers

  function Row(m: Metrics, index: nat): nat
    requires m.perRow > 0
  {
    index / m.perRow
  }

  function Column(m: Metrics, index: nat): nat
    requires m.perRow > 0
  {
    index % m.perRow
  }

  function IconRect(m: Metrics, index: nat): Rect
    requires m.perRow > 0
  {
    var left, top := Column(m, index) * m.size + m.iconX, Row(m, index) * m.size + m.iconY;
    Rect(left, top, left + m.iconWidth, top + m.iconHeight)
  }

  function TitleRect(m: Metrics, index: nat): Rect
    requires m.perRow > 0
  {
    var left, top := Column(m, index) * m.size + m.titleX, Row(m, index) * m.size + m.titleY;
    Rect(left, top, left + m.titleWidth, top + m.titleHeight)
  }

  function Moved(r: Rect, dx: int, dy: int): Rect {
    Rect(r.left + dx, r.top + dy, r.right + dx, r.bottom + dy)
  }

  /** The first launcher is in the corner, the next one to its right, and after a full row the next row begins below. */
  lemma {:induction false} LaunchersInRows(m: Metrics, k: nat)
    requires m.perRow > 0
    ensures IconRect(m, 0) == Rect(m.iconX, m.iconY, m.iconX + m.iconWidth, m.iconY + m.iconHeight)
    ensures k + 1 < m.perRow ==> IconRect(m, k + 1) == Moved(IconRect(m, k), m.size, 0)
    ensures IconRect(m, k + m.perRow) == Moved(IconRect(m, k), 0, m.size)
    ensures TitleRect(m, k) == Moved(Rect(m.titleX, m.titleY, m.titleX + m.titleWidth, m.titleY + m.titleHeight),
      IconRect(m, k).left - m.iconX, IconRect(m, k).top - m.iconY)
  {
    hide Row, Column;
    RowBelow(m, k);
    OneMore(Row(m, k), m.size);
    if k + 1 < m.perRow {
      FirstRow(m, k);
      FirstRow(m, k + 1);
      OneMore(k, m.size);
    }
    FirstRow(m, 0);
  }

  lemma {:induction false} OneMore(n: int, size: int)
    ensures (n + 1) * size == n * size + size
  {
  }

  lemma {:induction false} FirstRow(m: Metrics, k: nat)
    requires k < m.perRow
    ensures Row(m, k) == 0 && Column(m, k) == k
  {
  }

  lemma {:induction false} RowBelow(m: Metrics, k: nat)
    requires m.perRow > 0
    ensures Row(m, k + m.perRow) == Row(m, k) + 1 && Column(m, k + m.perRow) == Column(m, k)
  {
    var n := m.perRow;
    assert k == n * (k / n) + k % n;
    DivMod(k + n, n, k / n + 1, k % n);
  }

  lemma {:induction false} DivMod(x: int, n: int, q: int, r: int)
    requires n > 0 && x == n * q + r && 0 <= r < n
    ensures x / n == q && x % n == r
  {
    if x / n < q {
      Order(x / n + 1, q, n);
    } else if x / n > q {
      Order(q + 1, x / n, n);
    }
  }

  /** In its cell the icon is centred above the title, which has two lines of at least fourteen characters. */
  lemma {:induction false} CellLayout(iconWidth: int, iconHeight: int, charWidth: int, charHeight: int, screen: int)
    requires iconWidth > 0 && iconHeight > 0 && charWidth > 0 && charHeight > 0 && screen >= 0
    ensures var m := MetricsFor(iconWidth, iconHeight, charWidth, charHeight, screen);
      && 0 <= (m.size - (m.iconX + m.iconWidth)) - m.iconX <= 1
      && m.titleX == m.size - (m.titleX + m.titleWidth) == BORDER
      && m.titleHeight == 2 * charHeight && m.titleWidth >= 14 * charWidth
      && m.iconY >= BORDER && m.iconY + m.iconHeight + PADDING <= m.titleY && m.titleY + m.titleHeight + BORDER <= m.size
      && (m.perRow > 1 ==> m.perRow * m.size <= screen) && screen < (m.perRow + 1) * m.size
  {
    var m := MetricsFor(iconWidth, iconHeight, charWidth, charHeight, screen);
    Centred(m.size - iconWidth);
    Centred(Max(iconWidth, iconHeight) - iconHeight);
    var q := screen / m.size;
    assert screen == m.size * q + screen % m.size;
    assert (m.perRow + 1) * m.size == m.size * m.perRow + m.size;
  }

  /** All four edges belong to the rectangle. */
  predicate Inside(r: Rect, x: int, y: int) {
    r.left <= x <= r.right && r.top <= y <= r.bottom
  }

  predicate Hit(m: Metrics, index: nat, x: int, y: int)
    requires m.perRow > 0
  {
    Inside(IconRect(m, index), x, y) || Inside(TitleRect(m, index), x, y)
  }

  /** launcher_from_point; a negative index is a huge unsigned one. */
  function Lookup(m: Metrics, count: nat, x: int, y: int): Option<nat>
    requires m.size > 0 && m.perRow > 0
  {
    var index := Quotient(x, m.size) + Quotient(y, m.size) * m.perRow;
    if count == 0 || index < 0 || index >= count then None
    else if Hit(m, index, x, y) then Some(index) else None
  }

  // ---------------------------------------------------------------- they always agree

  lemma {:induction false} DivCell(x: int, cell: nat, size: int)
    requires size > 0 && cell * size <= x < cell * size + size
    ensures Quotient(x, size) == cell
  {
    var q := x / size;
    assert cell * size >= 0;
    if q < cell {
      Order(q + 1, cell, size);
      assert false;
    } else if q > cell {
      Order(cell + 1, q, size);
      assert false;
    }
  }

  lemma {:induction false} Order(a: int, b: int, size: int)
    requires a <= b && size > 0
    ensures a * size <= b * size
  {
  }

  /** A point on a launcher lies in the launcher's cell. */
  lemma {:induction false} HitCell(m: Metrics, k: nat, x: int, y: int)
    requires Fits(m) && Hit(m, k, x, y)
    ensures Quotient(x, m.size) == Column(m, k) && Quotient(y, m.size) == Row(m, k)
  {
    DivCell(x, Column(m, k), m.size);
    DivCell(y, Row(m, k), m.size);
  }

  lemma {:induction false} IndexBack(m: Metrics, k: nat)
    requires m.perRow > 0
    ensures Column(m, k) + Row(m, k) * m.perRow == k
  {
  }

  /** For every point, division finds launcher k exactly when the point is on launcher k. */
  lemma {:induction false} LookupIff(m: Metrics, count: nat, x: int, y: int, k: nat)
    requires Fits(m)
    ensures Lookup(m, count, x, y) == Some(k) <==> k < count && Hit(m, k, x, y)
  {
    if k < count && Hit(m, k, x, y) {
      HitCell(m, k, x, y);
      IndexBack(m, k);
    }
  }

  /** The same for the geometry of any icon size, font and screen. */
  lemma {:induction false} LookupOnDesktop(iconWidth: int, iconHeight: int, charWidth: int, charHeight: int, screen: int,
                                           count: nat, x: int, y: int, k: nat)
    requires iconWidth > 0 && iconHeight > 0 && charWidth > 0 && charHeight > 0 && screen >= 0
    ensures var m := MetricsFor(iconWidth, iconHeight, charWidth, charHeight, screen);
      m.size > 0 && m.perRow > 0 && (Lookup(m, count, x, y) == Some(k) <==> k < count && Hit(m, k, x, y))
  {
    MetricsFit(iconWidth, iconHeight, charWidth, charHeight, screen);
    LookupIff(MetricsFor(iconWidth, iconHeight, charWidth, charHeight, screen), count, x, y, k);
  }

  /** No point is on two launchers. */
  lemma {:induction false} HitUnique(m: Metrics, j: nat, k: nat, x: int, y: int)
    requires Fits(m) && Hit(m, j, x, y) && Hit(m, k, x, y)
    ensures j == k
  {
    HitCell(m, j, x, y);
    HitCell(m, k, x, y);
    IndexBack(m, j);
    IndexBack(m, k);
  }

  /** The exhaustive scan finds what the lookup finds. */
  method ScanAll(m: Metrics, count: nat, x: int, y: int) returns (r: Option<nat>)
    requires Fits(m)
    ensures r == Lookup(m, count, x, y)
  {
    var k := 0;
    while k < count
      invariant 0 <= k <= count && forall j: nat :: j < k ==> !Hit(m, j, x, y)
    {
      if Hit(m, k, x, y) {
        LookupIff(m, count, x, y, k);
        return Some(k);
      }
      k := k + 1;
    }
    forall j: nat | j < count ensures Lookup(m, count, x, y) != Some(j) { LookupIff(m, count, x, y, j); }
    return None;
  }
}
