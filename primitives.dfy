/**
 * The integer rasterisers behind the drawing calls. Each one returns the
 * points it hands to its pixel callback, in call order; the caller
 * decides what a point does to the display.
 */
module Primitives {
  import opened Common
  import opened Arith
  import opened Regions

  function Abs(x: int): (r: int)
    ensures r >= 0 && (r == x || r == -x)
  {
    if x < 0 then -x else x
  }

  function Sign(x: int): (s: int)
    ensures -1 <= s <= 1 && (s == 0 <==> x == 0)
    ensures s * Abs(x) == x
  {
    if x < 0 then -1 else if x > 0 then 1 else 0
  }

  function Min(a: int, b: int): (m: int)
    ensures m <= a && m <= b && (m == a || m == b)
  {
    if a < b then a else b
  }

  function Max(a: int, b: int): (m: int)
    ensures m >= a && m >= b && (m == a || m == b)
  {
    if a > b then a else b
  }

  /** `value` forced into [minVal, maxVal]; below the range wins when the range is empty. */
  function Clamp(value: int, minVal: int, maxVal: int): (r: int)
    ensures value < minVal ==> r == minVal
    ensures minVal <= value <= maxVal ==> r == value
    ensures minVal <= maxVal ==> minVal <= r <= maxVal
    ensures minVal <= value && maxVal < value ==> r == maxVal
  {
    if value < minVal then minVal else if value > maxVal then maxVal else value
  }

  /** Clamping twice is clamping once, when the range is not empty. */
  lemma ClampIdempotent(value: int, minVal: int, maxVal: int)
    requires minVal <= maxVal
    ensures Clamp(Clamp(value, minVal, maxVal), minVal, maxVal) == Clamp(value, minVal, maxVal)
  {
  }

  // ---- lines ----

  /** `q` follows `p` by a king move toward the end point: each coordinate stays or moves by its step. */
  predicate Step(p: Point, q: Point, sx: int, sy: int) {
    (q.x == p.x || q.x == p.x + sx) && (q.y == p.y || q.y == p.y + sy) && q != p
  }

  predicate Between(a: int, v: int, b: int) {
    Min(a, b) <= v <= Max(a, b)
  }

  /** The coordinate `i` steps of sign `s` away from the origin. */
  function Offset(s: int, i: int): int {
    if s > 0 then i else if s < 0 then -i else 0
  }

  /** The point Bresenham's loop is at after i steps along x and j along y. */
  function LinePoint(x0: int, y0: int, x1: int, y1: int, i: int, j: int): Point {
    Point(x0 + Offset(Sign(x1 - x0), i), y0 + Offset(Sign(y1 - y0), j))
  }

  /** The step counts after one more pass of Bresenham's loop, away from the end point. */
  function LineNext(dx: int, dy: int, i: int, j: int): (n: (int, int))
    requires 0 <= i <= dx && 0 <= j <= dy && (i < dx || j < dy)
    ensures i <= n.0 <= i + 1 && j <= n.1 <= j + 1 && (n.0, n.1) != (i, j)
    ensures n.0 <= dx && n.1 <= dy
  {
    LineStepBounds(dx, dy, i, j);
    var e2 := 2 * Err(dx, dy, i, j);
    (if e2 > -dy then i + 1 else i, if e2 < dx then j + 1 else j)
  }

  /** The points Bresenham's loop emits from its state after i and j steps on. */
  function LineWalk(x0: int, y0: int, x1: int, y1: int, i: int, j: int): (s: seq<Point>)
    requires 0 <= i <= Abs(x1 - x0) && 0 <= j <= Abs(y1 - y0)
    decreases Abs(x1 - x0) - i + Abs(y1 - y0) - j
  {
    var p := LinePoint(x0, y0, x1, y1, i, j);
    OffsetArrives(x1 - x0, i);
    OffsetArrives(y1 - y0, j);
    if p == Point(x1, y1) then [p]
    else
      var n := LineNext(Abs(x1 - x0), Abs(y1 - y0), i, j);
      [p] + LineWalk(x0, y0, x1, y1, n.0, n.1)
  }

  /** What DrawLineBresenham emits. */
  function Line(x0: int, y0: int, x1: int, y1: int): seq<Point> {
    LineWalk(x0, y0, x1, y1, 0, 0)
  }

  method DrawLineBresenham(x0: int, y0: int, x1: int, y1: int) returns (pts: seq<Point>)
    ensures pts == Line(x0, y0, x1, y1)
  {
    var dx := Abs(x1 - x0);
    var dy := Abs(y1 - y0);
    var sx := Sign(x1 - x0);
    var sy := Sign(y1 - y0);
    var err := dx - dy;
    var x, y := x0, y0;
    ghost var i, j := 0, 0;
    ghost var total := Line(x0, y0, x1, y1);
    pts := [];
    while true
      invariant 0 <= i <= dx && 0 <= j <= dy
      invariant Point(x, y) == LinePoint(x0, y0, x1, y1, i, j)
      invariant err == Err(dx, dy, i, j)
      invariant pts + LineWalk(x0, y0, x1, y1, i, j) == total
      decreases dx - i + dy - j
    {
      ghost var before := pts;
      pts := pts + [Point(x, y)];
      if x == x1 && y == y1 {
        LineWalkEnds(x0, y0, x1, y1, i, j);
        break;
      }
      LineWalkAdvance(x0, y0, x1, y1, i, j, before, total);
      err, x, y, i, j := BresenhamStep(x0, y0, x1, y1, err, x, y, i, j);
    }
  }

  lemma LineWalkEnds(x0: int, y0: int, x1: int, y1: int, i: int, j: int)
    requires 0 <= i <= Abs(x1 - x0) && 0 <= j <= Abs(y1 - y0)
    requires LinePoint(x0, y0, x1, y1, i, j) == Point(x1, y1)
    ensures LineWalk(x0, y0, x1, y1, i, j) == [Point(x1, y1)]
  {
  }

  /** Emitting the current point moves the walk on to the next state. */
  lemma LineWalkAdvance(x0: int, y0: int, x1: int, y1: int, i: int, j: int, before: seq<Point>, total: seq<Point>)
    requires 0 <= i <= Abs(x1 - x0) && 0 <= j <= Abs(y1 - y0)
    requires LinePoint(x0, y0, x1, y1, i, j) != Point(x1, y1)
    requires before + LineWalk(x0, y0, x1, y1, i, j) == total
    ensures i < Abs(x1 - x0) || j < Abs(y1 - y0)
    ensures var n := LineNext(Abs(x1 - x0), Abs(y1 - y0), i, j);
            (before + [LinePoint(x0, y0, x1, y1, i, j)]) + LineWalk(x0, y0, x1, y1, n.0, n.1) == total
  {
    OffsetArrives(x1 - x0, i);
    OffsetArrives(y1 - y0, j);
    var n := LineNext(Abs(x1 - x0), Abs(y1 - y0), i, j);
    var rest := LineWalk(x0, y0, x1, y1, n.0, n.1);
    assert LineWalk(x0, y0, x1, y1, i, j) == [LinePoint(x0, y0, x1, y1, i, j)] + rest;
    AppendAssoc(before, [LinePoint(x0, y0, x1, y1, i, j)], rest);
  }

  /** One pass of Bresenham's loop past the point it has just emitted. */
  method BresenhamStep(x0: int, y0: int, x1: int, y1: int, err: int, x: int, y: int, ghost i: int, ghost j: int)
    returns (err': int, x': int, y': int, ghost i': int, ghost j': int)
    requires 0 <= i <= Abs(x1 - x0) && 0 <= j <= Abs(y1 - y0) && (i < Abs(x1 - x0) || j < Abs(y1 - y0))
    requires Point(x, y) == LinePoint(x0, y0, x1, y1, i, j) && err == Err(Abs(x1 - x0), Abs(y1 - y0), i, j)
    ensures (i', j') == LineNext(Abs(x1 - x0), Abs(y1 - y0), i, j)
    ensures Point(x', y') == LinePoint(x0, y0, x1, y1, i', j') && err' == Err(Abs(x1 - x0), Abs(y1 - y0), i', j')
  {
    var dx, dy := Abs(x1 - x0), Abs(y1 - y0);
    var sx, sy := Sign(x1 - x0), Sign(y1 - y0);
    err', x', y', i', j' := err, x, y, i, j;
    var e2 := 2 * err;
    if e2 > -dy {
      ErrStep(dx, dy, i', j');
      OffsetNext(sx, i');
      err' := err' - dy;
      x' := x' + sx;
      i' := i' + 1;
    }
    if e2 < dx {
      ErrStep(dx, dy, i', j');
      OffsetNext(sy, j');
      err' := err' + dx;
      y' := y' + sy;
      j' := j' + 1;
    }
  }

  /** From any state of the loop on, the walk starts at that state's point and ends at (x1, y1). */
  lemma {:induction false} LineWalkEndpoints(x0: int, y0: int, x1: int, y1: int, i: int, j: int)
    requires 0 <= i <= Abs(x1 - x0) && 0 <= j <= Abs(y1 - y0)
    ensures var s := LineWalk(x0, y0, x1, y1, i, j);
            |s| >= 1 && s[0] == LinePoint(x0, y0, x1, y1, i, j) && s[|s| - 1] == Point(x1, y1)
    decreases Abs(x1 - x0) - i + Abs(y1 - y0) - j
  {
    if LinePoint(x0, y0, x1, y1, i, j) != Point(x1, y1) {
      OffsetArrives(x1 - x0, i);
      OffsetArrives(y1 - y0, j);
      var n := LineNext(Abs(x1 - x0), Abs(y1 - y0), i, j);
      LineWalkEndpoints(x0, y0, x1, y1, n.0, n.1);
    }
  }

  /** Each point of the walk is a king move on from the one before, toward (x1, y1). */
  lemma {:induction false} LineWalkSteps(x0: int, y0: int, x1: int, y1: int, i: int, j: int)
    requires 0 <= i <= Abs(x1 - x0) && 0 <= j <= Abs(y1 - y0)
    ensures var s := LineWalk(x0, y0, x1, y1, i, j);
            forall k :: 0 <= k < |s| - 1 ==> Step(s[k], s[k + 1], Sign(x1 - x0), Sign(y1 - y0))
    decreases Abs(x1 - x0) - i + Abs(y1 - y0) - j
  {
    var p := LinePoint(x0, y0, x1, y1, i, j);
    if p != Point(x1, y1) {
      OffsetArrives(x1 - x0, i);
      OffsetArrives(y1 - y0, j);
      var n := LineNext(Abs(x1 - x0), Abs(y1 - y0), i, j);
      OffsetNext(Sign(x1 - x0), i);
      OffsetNext(Sign(y1 - y0), j);
      LineWalkSteps(x0, y0, x1, y1, n.0, n.1);
      LineWalkEndpoints(x0, y0, x1, y1, n.0, n.1);
      var rest := LineWalk(x0, y0, x1, y1, n.0, n.1);
      assert Step(p, rest[0], Sign(x1 - x0), Sign(y1 - y0));
      assert LineWalk(x0, y0, x1, y1, i, j) == [p] + rest;
    }
  }

  /** Every point of the walk lies in the bounding box of the end points. */
  lemma {:induction false} LineWalkBounded(x0: int, y0: int, x1: int, y1: int, i: int, j: int)
    requires 0 <= i <= Abs(x1 - x0) && 0 <= j <= Abs(y1 - y0)
    ensures forall p :: p in LineWalk(x0, y0, x1, y1, i, j) ==> Between(x0, p.x, x1) && Between(y0, p.y, y1)
    decreases Abs(x1 - x0) - i + Abs(y1 - y0) - j
  {
    OffsetBetween(x0, x1 - x0, i);
    OffsetBetween(y0, y1 - y0, j);
    if LinePoint(x0, y0, x1, y1, i, j) != Point(x1, y1) {
      OffsetArrives(x1 - x0, i);
      OffsetArrives(y1 - y0, j);
      var n := LineNext(Abs(x1 - x0), Abs(y1 - y0), i, j);
      LineWalkBounded(x0, y0, x1, y1, n.0, n.1);
    }
  }

  /** The ends of a line and the box it stays in. */
  lemma LineEnds(x0: int, y0: int, x1: int, y1: int)
    ensures var s := Line(x0, y0, x1, y1);
            && |s| >= 1 && s[0] == Point(x0, y0) && s[|s| - 1] == Point(x1, y1)
            && (forall p :: p in s ==> Between(x0, p.x, x1) && Between(y0, p.y, y1))
  {
    LineWalkEndpoints(x0, y0, x1, y1, 0, 0);
    LineWalkBounded(x0, y0, x1, y1, 0, 0);
  }

  /**
   * Bresenham's line starts at (x0, y0) and ends at (x1, y1), each point
   * a king move on from the one before, toward (x1, y1), inside the
   * bounding box of the end points.
   */
  lemma LineShape(x0: int, y0: int, x1: int, y1: int)
    ensures var s := Line(x0, y0, x1, y1);
            && |s| >= 1 && s[0] == Point(x0, y0) && s[|s| - 1] == Point(x1, y1)
            && (forall k :: 0 <= k < |s| - 1 ==> Step(s[k], s[k + 1], Sign(x1 - x0), Sign(y1 - y0)))
            && (forall p :: p in s ==> Between(x0, p.x, x1) && Between(y0, p.y, y1))
  {
    LineWalkEndpoints(x0, y0, x1, y1, 0, 0);
    LineWalkSteps(x0, y0, x1, y1, 0, 0);
    LineWalkBounded(x0, y0, x1, y1, 0, 0);
  }

  /** Bresenham's error term after i steps along x, each subtracting dy, and j along y, each adding dx. */
  function Err(dx: int, dy: int, i: nat, j: nat): int
    decreases i + j
  {
    if i == 0 && j == 0 then dx - dy
    else if i > 0 then Err(dx, dy, i - 1, j) - dy
    else Err(dx, dy, i, j - 1) + dx
  }

  lemma {:induction false} ErrClosed(dx: int, dy: int, i: nat, j: nat)
    ensures Err(dx, dy, i, j) == dx * (j + 1) - dy * (i + 1)
    decreases i + j
  {
    if i > 0 {
      ErrClosed(dx, dy, i - 1, j);
    } else if j > 0 {
      ErrClosed(dx, dy, i, j - 1);
    }
  }

  /** The error term depends only on how many steps were taken each way, not on their order. */
  lemma ErrStep(dx: int, dy: int, i: nat, j: nat)
    ensures Err(dx, dy, i, j) - dy == Err(dx, dy, i + 1, j)
    ensures Err(dx, dy, i, j) + dx == Err(dx, dy, i, j + 1)
  {
    ErrClosed(dx, dy, i, j);
    ErrClosed(dx, dy, i, j + 1);
    ErrClosed(dx, dy, i + 1, j);
  }

  /**
   * While the end point is not reached, Bresenham's error term moves at
   * least one coordinate and never one that has already arrived.
   */
  lemma LineStepBounds(dx: int, dy: int, i: int, j: int)
    requires 0 <= i <= dx && 0 <= j <= dy && (i < dx || j < dy)
    ensures 2 * Err(dx, dy, i, j) > -dy ==> i < dx
    ensures 2 * Err(dx, dy, i, j) < dx ==> j < dy
    ensures 2 * Err(dx, dy, i, j) > -dy || 2 * Err(dx, dy, i, j) < dx
  {
    ErrClosed(dx, dy, i, j);
    StepArithmetic(dx, dy, i, j, Err(dx, dy, i, j));
  }

  lemma StepArithmetic(dx: int, dy: int, i: int, j: int, err: int)
    requires 0 <= i <= dx && 0 <= j <= dy && (i < dx || j < dy)
    requires err == dx * (j + 1) - dy * (i + 1)
    ensures 2 * err > -dy ==> i < dx
    ensures 2 * err < dx ==> j < dy
    ensures 2 * err > -dy || 2 * err < dx
  {
    if i == dx && j < dy {
      MulMonotone(j + 1, dy, dx);
    }
    if j == dy && i < dx {
      MulMonotone(i + 1, dx, dy);
    }
  }

  /** After i of the |d| steps toward d, the offset is d exactly when all steps are taken. */
  lemma OffsetArrives(d: int, i: int)
    requires 0 <= i <= Abs(d)
    ensures Offset(Sign(d), i) == d <==> i == Abs(d)
  {
  }

  lemma OffsetNext(s: int, i: int)
    requires -1 <= s <= 1
    ensures Offset(s, i + 1) == Offset(s, i) + s
  {
  }

  lemma OffsetBetween(a: int, d: int, i: int)
    requires 0 <= i <= Abs(d)
    ensures Between(a, a + Offset(Sign(d), i), a + d)
  {
  }

  // ---- horizontal runs and rectangles ----

  /** The run drawHorizontalLine emits: from the smaller end to the larger, left to right. */
  function HSpan(x1: int, x2: int, y: int): seq<Point> {
    if x1 > x2 then Span(x2, x1 + 1, y) else Span(x1, x2 + 1, y)
  }

  method DrawHorizontalLine(x1: int, x2: int, y: int) returns (pts: seq<Point>)
    ensures pts == HSpan(x1, x2, y)
  {
    var a, b := x1, x2;
    if a > b {
      a, b := b, a;
    }
    pts := [];
    var x := a;
    while x <= b
      invariant a <= x <= b + 1
      invariant pts == Span(a, x, y)
      invariant forall i :: 0 <= i < |pts| ==> pts[i] == Point(a + i, y)
    {
      pts := pts + [Point(x, y)];
      x := x + 1;
    }
  }

  /** drawHorizontalLine visits every column between its ends once, from the smaller to the larger. */
  lemma HSpanShape(x1: int, x2: int, y: int)
    ensures |HSpan(x1, x2, y)| == Max(x1, x2) - Min(x1, x2) + 1
    ensures forall i :: 0 <= i < |HSpan(x1, x2, y)| ==> HSpan(x1, x2, y)[i] == Point(Min(x1, x2) + i, y)
  {
    var a, b := Min(x1, x2), Max(x1, x2);
    var s := HSpan(x1, x2, y);
    assert s == Span(a, b + 1, y);
    forall i | 0 <= i < |s|
      ensures s[i] == Point(a + i, y)
    {
      SpanAt(a, b + 1, y, i);
    }
  }

  /** The rows y0, ..., yEnd - 1 of a filled rectangle, each the run from xa to xb. */
  function HRows(xa: int, xb: int, y0: int, yEnd: int): seq<Point>
    decreases yEnd - y0
  {
    if yEnd <= y0 then [] else HRows(xa, xb, y0, yEnd - 1) + HSpan(xa, xb, yEnd - 1)
  }

  /** The left and right edge points of rows y0, ..., yEnd - 1. */
  function Sides(xa: int, xb: int, y0: int, yEnd: int): seq<Point>
    decreases yEnd - y0
  {
    if yEnd <= y0 then [] else Sides(xa, xb, y0, yEnd - 1) + [Point(xa, yEnd - 1), Point(xb, yEnd - 1)]
  }

  /** What DrawRect emits: rows for a filled rectangle, else top, bottom, then both sides row by row. */
  function RectPoints(x: int, y: int, w: int, h: int, filled: bool): seq<Point> {
    if w < 0 || h < 0 then []
    else if filled then HRows(x, x + w - 1, y, y + h)
    else HSpan(x, x + w - 1, y) + HSpan(x, x + w - 1, y + h - 1) + Sides(x, x + w - 1, y, y + h)
  }

  method DrawRect(x: int, y: int, w: int, h: int, filled: bool) returns (pts: seq<Point>)
    ensures pts == RectPoints(x, y, w, h, filled)
  {
    if w < 0 || h < 0 {
      return [];
    }
    var x1 := x + w;
    var y1 := y + h;
    pts := [];
    if filled {
      var py := y;
      while py < y1
        invariant y <= py <= y1 || (py == y && y1 < y)
        invariant pts == HRows(x, x1 - 1, y, py)
      {
        var run := DrawHorizontalLine(x, x1 - 1, py);
        pts := pts + run;
        py := py + 1;
      }
    } else {
      var top := DrawHorizontalLine(x, x1 - 1, y);
      var bottom := DrawHorizontalLine(x, x1 - 1, y1 - 1);
      pts := top + bottom;
      ghost var edges := pts;
      var py := y;
      while py < y1
        invariant y <= py <= y1 || (py == y && y1 < y)
        invariant pts == edges + Sides(x, x1 - 1, y, py)
      {
        pts := pts + [Point(x, py)];
        pts := pts + [Point(x1 - 1, py)];
        py := py + 1;
      }
    }
  }

  /** The rows of a rectangle at least one pixel wide are the scan of the rectangle. */
  lemma {:induction false} HRowsAreRows(xa: int, xb: int, y0: int, yEnd: int)
    requires xa <= xb
    ensures HRows(xa, xb, y0, yEnd) == Rows(xa, xb, y0, yEnd)
    decreases yEnd - y0
  {
    if yEnd > y0 {
      HRowsAreRows(xa, xb, y0, yEnd - 1);
    }
  }

  lemma {:induction false} RowsLength(xa: int, xb: int, y0: int, yEnd: int)
    requires xa <= xb + 1 && y0 <= yEnd
    ensures |Rows(xa, xb, y0, yEnd)| == (xb - xa + 1) * (yEnd - y0)
    decreases yEnd - y0
  {
    if yEnd > y0 {
      RowsLength(xa, xb, y0, yEnd - 1);
    }
  }

  /** A filled rectangle at least one pixel wide covers exactly its w by h cells, once each. */
  lemma FilledRectExact(x: int, y: int, w: int, h: int)
    requires w >= 1 && h >= 0
    ensures forall p :: p in RectPoints(x, y, w, h, true) <==> x <= p.x < x + w && y <= p.y < y + h
    ensures |RectPoints(x, y, w, h, true)| == w * h
  {
    var rows := Rows(x, x + w - 1, y, y + h);
    HRowsAreRows(x, x + w - 1, y, y + h);
    assert RectPoints(x, y, w, h, true) == rows;
    RowsMembers(x, x + w - 1, y, y + h);
    RectLength(x, y, w, h);
  }

  lemma RectLength(x: int, y: int, w: int, h: int)
    requires w >= 1 && h >= 0
    ensures |Rows(x, x + w - 1, y, y + h)| == w * h
  {
    RowsLength(x, x + w - 1, y, y + h);
    var cols, lines := x + w - 1 - x + 1, y + h - y;
    assert cols == w && lines == h;
    assert |Rows(x, x + w - 1, y, y + h)| == cols * lines;
  }

  /** A filled rectangle of width 0 still emits the two cells x - 1 and x of every row, as drawHorizontalLine swaps its ends. */
  lemma ZeroWidthRectDrawsTwoColumns(x: int, y: int, h: int)
    requires h >= 1
    ensures Point(x - 1, y) in RectPoints(x, y, 0, h, true) && Point(x, y) in RectPoints(x, y, 0, h, true)
  {
    SpanMembers(x - 1, x + 1, y);
    HRowsContainRow(x, x - 1, y, y + h, y);
  }

  lemma {:induction false} HRowsContainRow(xa: int, xb: int, y0: int, yEnd: int, row: int)
    requires y0 <= row < yEnd
    ensures forall p :: p in HSpan(xa, xb, row) ==> p in HRows(xa, xb, y0, yEnd)
    decreases yEnd - y0
  {
    if row < yEnd - 1 {
      HRowsContainRow(xa, xb, y0, yEnd - 1, row);
    }
  }

  lemma {:induction false} SidesMembers(xa: int, xb: int, y0: int, yEnd: int)
    ensures forall p :: p in Sides(xa, xb, y0, yEnd) <==> (p.x == xa || p.x == xb) && y0 <= p.y < yEnd
    decreases yEnd - y0
  {
    if yEnd > y0 {
      SidesMembers(xa, xb, y0, yEnd - 1);
    }
  }

  /** A rectangle outline at least one pixel each way lies on the rectangle's edges and contains its four corners. */
  lemma OutlineRectOnEdges(x: int, y: int, w: int, h: int)
    requires w >= 1 && h >= 1
    ensures forall p :: p in RectPoints(x, y, w, h, false) ==>
              x <= p.x < x + w && y <= p.y < y + h && (p.x == x || p.x == x + w - 1 || p.y == y || p.y == y + h - 1)
    ensures Point(x, y) in RectPoints(x, y, w, h, false) && Point(x + w - 1, y) in RectPoints(x, y, w, h, false)
    ensures Point(x, y + h - 1) in RectPoints(x, y, w, h, false) && Point(x + w - 1, y + h - 1) in RectPoints(x, y, w, h, false)
  {
    SpanMembers(x, x + w, y);
    SpanMembers(x, x + w, y + h - 1);
    SidesMembers(x, x + w - 1, y, y + h);
  }

  // ---- circles ----

  /** The mirror images of `p` in the vertical and horizontal axes through (cx, cy) and in their diagonal. */
  function FlipX(p: Point, cx: int): Point {
    Point(2 * cx - p.x, p.y)
  }

  function FlipY(p: Point, cy: int): Point {
    Point(p.x, 2 * cy - p.y)
  }

  function Swap(p: Point, cx: int, cy: int): Point {
    Point(cx + p.y - cy, cy + p.x - cx)
  }

  /** Closed under both axis mirrors; the two generate the four-fold symmetry of an ellipse. */
  predicate AxisSymmetric(s: seq<Point>, cx: int, cy: int) {
    forall p :: p in s ==> FlipX(p, cx) in s && FlipY(p, cy) in s
  }

  /** Closed under both axis mirrors and the diagonal; the three generate all eight symmetries of a circle. */
  predicate EightfoldSymmetric(s: seq<Point>, cx: int, cy: int) {
    AxisSymmetric(s, cx, cy) && forall p :: p in s ==> Swap(p, cx, cy) in s
  }

  lemma EightfoldAppend(a: seq<Point>, b: seq<Point>, cx: int, cy: int)
    requires EightfoldSymmetric(a, cx, cy) && EightfoldSymmetric(b, cx, cy)
    ensures EightfoldSymmetric(a + b, cx, cy)
  {
  }

  lemma AxisAppend(a: seq<Point>, b: seq<Point>, cx: int, cy: int)
    requires AxisSymmetric(a, cx, cy) && AxisSymmetric(b, cx, cy)
    ensures AxisSymmetric(a + b, cx, cy)
  {
  }

  /** The eight points one pass of the circle loop emits. */
  function Octants(cx: int, cy: int, x: int, y: int): seq<Point> {
    [Point(cx + x, cy + y), Point(cx - x, cy + y), Point(cx + x, cy - y), Point(cx - x, cy - y),
     Point(cx + y, cy + x), Point(cx - y, cy + x), Point(cx + y, cy - x), Point(cx - y, cy - x)]
  }

  /** The runs over columns cx - a .. cx + a on the rows cy + b and cy - b. */
  function RunPair(cx: int, cy: int, a: int, b: int): seq<Point> {
    HSpan(cx - a, cx + a, cy + b) + HSpan(cx - a, cx + a, cy - b)
  }

  /** The four runs one pass of the filled-circle loop emits. */
  function CircleRuns(cx: int, cy: int, x: int, y: int): seq<Point> {
    RunPair(cx, cy, x, y) + RunPair(cx, cy, y, x)
  }

  /** `p` lies in the square of side 2r + 1 centred on (cx, cy). */
  predicate InSquare(p: Point, cx: int, cy: int, r: int) {
    cx - r <= p.x <= cx + r && cy - r <= p.y <= cy + r
  }

  lemma HSpanMembers(x1: int, x2: int, y: int)
    ensures forall p :: p in HSpan(x1, x2, y) <==> Min(x1, x2) <= p.x <= Max(x1, x2) && p.y == y
  {
    if x1 > x2 {
      SpanMembers(x2, x1 + 1, y);
    } else {
      SpanMembers(x1, x2 + 1, y);
    }
  }

  lemma RunPairMembers(cx: int, cy: int, a: int, b: int)
    requires a >= 0
    ensures forall p :: p in RunPair(cx, cy, a, b) <==> cx - a <= p.x <= cx + a && (p.y == cy + b || p.y == cy - b)
  {
    HSpanMembers(cx - a, cx + a, cy + b);
    HSpanMembers(cx - a, cx + a, cy - b);
  }

  /** The midpoint step: x always advances, y drops when the decision term is not negative. */
  function CircleNextY(x: int, y: int, d: int): int {
    if d < 0 then y else y - 1
  }

  function CircleNextD(x: int, y: int, d: int): int {
    if d < 0 then d + 4 * x + 6 else d + 4 * (x - y) + 10
  }

  /** The circle loop's output from state (x, y, d) on. */
  function OutlineFrom(cx: int, cy: int, x: int, y: int, d: int): seq<Point>
    decreases y - x + 1
  {
    if x > y then []
    else Octants(cx, cy, x, y) + OutlineFrom(cx, cy, x + 1, CircleNextY(x, y, d), CircleNextD(x, y, d))
  }

  function FilledFrom(cx: int, cy: int, x: int, y: int, d: int): seq<Point>
    decreases y - x + 1
  {
    if x > y then []
    else CircleRuns(cx, cy, x, y) + FilledFrom(cx, cy, x + 1, CircleNextY(x, y, d), CircleNextD(x, y, d))
  }

  /** What DrawCircleOutline emits: nothing for a radius that is not positive. */
  function CircleOutline(cx: int, cy: int, r: int): (s: seq<Point>)
    ensures r <= 0 ==> s == []
  {
    if r <= 0 then [] else OutlineFrom(cx, cy, 0, r, 3 - 2 * r)
  }

  function FilledCircle(cx: int, cy: int, r: int): (s: seq<Point>)
    ensures r <= 0 ==> s == []
  {
    if r <= 0 then [] else FilledFrom(cx, cy, 0, r, 3 - 2 * r)
  }

  method DrawCircleOutline(cx: int, cy: int, r: int) returns (pts: seq<Point>)
    ensures pts == CircleOutline(cx, cy, r)
  {
    if r <= 0 {
      return [];
    }
    var x := 0;
    var y := r;
    var d := 3 - 2 * r;
    ghost var total := OutlineFrom(cx, cy, x, y, d);
    pts := [];
    while x <= y
      invariant pts + OutlineFrom(cx, cy, x, y, d) == total
      decreases y - x + 1
    {
      OutlineAdvance(cx, cy, x, y, d, pts, total);
      ghost var ny, nd := CircleNextY(x, y, d), CircleNextD(x, y, d);
      pts := pts + Octants(cx, cy, x, y);
      if d < 0 {
        d := d + 4 * x + 6;
      } else {
        d := d + 4 * (x - y) + 10;
        y := y - 1;
      }
      x := x + 1;
      assert y == ny && d == nd;
    }
  }

  lemma OutlineAdvance(cx: int, cy: int, x: int, y: int, d: int, pts: seq<Point>, total: seq<Point>)
    requires x <= y && pts + OutlineFrom(cx, cy, x, y, d) == total
    ensures (pts + Octants(cx, cy, x, y)) + OutlineFrom(cx, cy, x + 1, CircleNextY(x, y, d), CircleNextD(x, y, d)) == total
  {
    var rest := OutlineFrom(cx, cy, x + 1, CircleNextY(x, y, d), CircleNextD(x, y, d));
    assert OutlineFrom(cx, cy, x, y, d) == Octants(cx, cy, x, y) + rest;
    AppendAssoc(pts, Octants(cx, cy, x, y), rest);
  }

  method DrawFilledCircle(cx: int, cy: int, r: int) returns (pts: seq<Point>)
    ensures pts == FilledCircle(cx, cy, r)
  {
    if r <= 0 {
      return [];
    }
    var x := 0;
    var y := r;
    var d := 3 - 2 * r;
    ghost var total := FilledFrom(cx, cy, x, y, d);
    pts := [];
    while x <= y
      invariant pts + FilledFrom(cx, cy, x, y, d) == total
      decreases y - x + 1
    {
      var runs := DrawCircleRuns(cx, cy, x, y);
      FilledAdvance(cx, cy, x, y, d, pts, total);
      ghost var ny, nd := CircleNextY(x, y, d), CircleNextD(x, y, d);
      pts := pts + runs;
      if d < 0 {
        d := d + 4 * x + 6;
      } else {
        d := d + 4 * (x - y) + 10;
        y := y - 1;
      }
      x := x + 1;
      assert y == ny && d == nd;
    }
  }

  lemma FilledAdvance(cx: int, cy: int, x: int, y: int, d: int, pts: seq<Point>, total: seq<Point>)
    requires x <= y && pts + FilledFrom(cx, cy, x, y, d) == total
    ensures (pts + CircleRuns(cx, cy, x, y)) + FilledFrom(cx, cy, x + 1, CircleNextY(x, y, d), CircleNextD(x, y, d)) == total
  {
    var rest := FilledFrom(cx, cy, x + 1, CircleNextY(x, y, d), CircleNextD(x, y, d));
    assert FilledFrom(cx, cy, x, y, d) == CircleRuns(cx, cy, x, y) + rest;
    AppendAssoc(pts, CircleRuns(cx, cy, x, y), rest);
  }

  /** The four horizontal lines one pass of the filled-circle loop draws. */
  method DrawCircleRuns(cx: int, cy: int, x: int, y: int) returns (runs: seq<Point>)
    ensures runs == CircleRuns(cx, cy, x, y)
  {
    var a := DrawHorizontalLine(cx - x, cx + x, cy + y);
    var b := DrawHorizontalLine(cx - x, cx + x, cy - y);
    var c := DrawHorizontalLine(cx - y, cx + y, cy + x);
    var e := DrawHorizontalLine(cx - y, cx + y, cy - x);
    assert a + b == RunPair(cx, cy, x, y);
    assert c + e == RunPair(cx, cy, y, x);
    runs := (a + b) + (c + e);
  }

  /** DrawCircle: the filled or the outline form. */
  method DrawCircle(cx: int, cy: int, r: int, filled: bool) returns (pts: seq<Point>)
    ensures pts == if filled then FilledCircle(cx, cy, r) else CircleOutline(cx, cy, r)
  {
    if filled {
      pts := DrawFilledCircle(cx, cy, r);
      return;
    }
    pts := DrawCircleOutline(cx, cy, r);
  }

  lemma OctantsSymmetric(cx: int, cy: int, x: int, y: int)
    ensures EightfoldSymmetric(Octants(cx, cy, x, y), cx, cy)
  {
    var s := Octants(cx, cy, x, y);
    forall p | p in s
      ensures FlipX(p, cx) in s && FlipY(p, cy) in s && Swap(p, cx, cy) in s
    {
      var k :| 0 <= k < 8 && s[k] == p;
      if k == 0 {
        assert FlipX(s[0], cx) == s[1] && FlipY(s[0], cy) == s[2] && Swap(s[0], cx, cy) == s[4];
      } else if k == 1 {
        assert FlipX(s[1], cx) == s[0] && FlipY(s[1], cy) == s[3] && Swap(s[1], cx, cy) == s[6];
      } else if k == 2 {
        assert FlipX(s[2], cx) == s[3] && FlipY(s[2], cy) == s[0] && Swap(s[2], cx, cy) == s[5];
      } else if k == 3 {
        assert FlipX(s[3], cx) == s[2] && FlipY(s[3], cy) == s[1] && Swap(s[3], cx, cy) == s[7];
      } else if k == 4 {
        assert FlipX(s[4], cx) == s[5] && FlipY(s[4], cy) == s[6] && Swap(s[4], cx, cy) == s[0];
      } else if k == 5 {
        assert FlipX(s[5], cx) == s[4] && FlipY(s[5], cy) == s[7] && Swap(s[5], cx, cy) == s[2];
      } else if k == 6 {
        assert FlipX(s[6], cx) == s[7] && FlipY(s[6], cy) == s[4] && Swap(s[6], cx, cy) == s[1];
      } else {
        assert FlipX(s[7], cx) == s[6] && FlipY(s[7], cy) == s[5] && Swap(s[7], cx, cy) == s[3];
      }
    }
  }

  lemma {:induction false} OutlineFromSymmetric(cx: int, cy: int, x: int, y: int, d: int)
    ensures EightfoldSymmetric(OutlineFrom(cx, cy, x, y, d), cx, cy)
    decreases y - x + 1
  {
    if x <= y {
      OctantsSymmetric(cx, cy, x, y);
      OutlineFromSymmetric(cx, cy, x + 1, CircleNextY(x, y, d), CircleNextD(x, y, d));
      EightfoldAppend(Octants(cx, cy, x, y), OutlineFrom(cx, cy, x + 1, CircleNextY(x, y, d), CircleNextD(x, y, d)), cx, cy);
    }
  }

  /** The circle outline is closed under the eight symmetries of the square about its centre. */
  lemma CircleOutlineSymmetric(cx: int, cy: int, r: int)
    ensures EightfoldSymmetric(CircleOutline(cx, cy, r), cx, cy)
  {
    if r > 0 {
      OutlineFromSymmetric(cx, cy, 0, r, 3 - 2 * r);
      assert CircleOutline(cx, cy, r) == OutlineFrom(cx, cy, 0, r, 3 - 2 * r);
    }
  }

  lemma {:induction false} OutlineFromBounded(cx: int, cy: int, x: int, y: int, d: int, r: int)
    requires 0 <= x && y <= r
    ensures forall p :: p in OutlineFrom(cx, cy, x, y, d) ==> InSquare(p, cx, cy, r)
    decreases y - x + 1
  {
    if x <= y {
      OutlineFromBounded(cx, cy, x + 1, CircleNextY(x, y, d), CircleNextD(x, y, d), r);
    }
  }

  /** Every outline point lies in the square of side 2r + 1 around the centre. */
  lemma CircleOutlineBounded(cx: int, cy: int, r: int)
    ensures forall p :: p in CircleOutline(cx, cy, r) ==> InSquare(p, cx, cy, r)
  {
    if r > 0 {
      OutlineFromBounded(cx, cy, 0, r, 3 - 2 * r, r);
    }
  }

  lemma OctantsInRuns(cx: int, cy: int, x: int, y: int)
    requires 0 <= x <= y
    ensures forall p :: p in Octants(cx, cy, x, y) ==> p in CircleRuns(cx, cy, x, y)
  {
    RunPairMembers(cx, cy, x, y);
    RunPairMembers(cx, cy, y, x);
  }

  lemma {:induction false} OutlineFromInFilled(cx: int, cy: int, x: int, y: int, d: int)
    requires 0 <= x
    ensures forall p :: p in OutlineFrom(cx, cy, x, y, d) ==> p in FilledFrom(cx, cy, x, y, d)
    decreases y - x + 1
  {
    if x <= y {
      OctantsInRuns(cx, cy, x, y);
      OutlineFromInFilled(cx, cy, x + 1, CircleNextY(x, y, d), CircleNextD(x, y, d));
    }
  }

  /** Every point of the outline is also drawn by the filled circle of the same radius. */
  lemma CircleOutlineInsideFilled(cx: int, cy: int, r: int)
    ensures forall p :: p in CircleOutline(cx, cy, r) ==> p in FilledCircle(cx, cy, r)
  {
    if r > 0 {
      OutlineFromInFilled(cx, cy, 0, r, 3 - 2 * r);
    }
  }

  lemma RunPairSymmetric(cx: int, cy: int, a: int, b: int)
    requires a >= 0
    ensures AxisSymmetric(RunPair(cx, cy, a, b), cx, cy)
  {
    RunPairMembers(cx, cy, a, b);
  }

  lemma {:induction false} FilledFromSymmetric(cx: int, cy: int, x: int, y: int, d: int)
    requires 0 <= x
    ensures AxisSymmetric(FilledFrom(cx, cy, x, y, d), cx, cy)
    decreases y - x + 1
  {
    if x <= y {
      var runs, rest := CircleRuns(cx, cy, x, y), FilledFrom(cx, cy, x + 1, CircleNextY(x, y, d), CircleNextD(x, y, d));
      RunPairSymmetric(cx, cy, x, y);
      RunPairSymmetric(cx, cy, y, x);
      AxisAppend(RunPair(cx, cy, x, y), RunPair(cx, cy, y, x), cx, cy);
      FilledFromSymmetric(cx, cy, x + 1, CircleNextY(x, y, d), CircleNextD(x, y, d));
      AxisAppend(runs, rest, cx, cy);
      assert FilledFrom(cx, cy, x, y, d) == runs + rest;
    }
  }

  /** The filled circle is closed under both axis mirrors through its centre. */
  lemma FilledCircleSymmetric(cx: int, cy: int, r: int)
    ensures AxisSymmetric(FilledCircle(cx, cy, r), cx, cy)
  {
    if r > 0 {
      FilledFromSymmetric(cx, cy, 0, r, 3 - 2 * r);
      assert FilledCircle(cx, cy, r) == FilledFrom(cx, cy, 0, r, 3 - 2 * r);
    }
  }

  lemma {:induction false} FilledFromBounded(cx: int, cy: int, x: int, y: int, d: int, r: int)
    requires 0 <= x && y <= r
    ensures forall p :: p in FilledFrom(cx, cy, x, y, d) ==> InSquare(p, cx, cy, r)
    decreases y - x + 1
  {
    if x <= y {
      var rest := FilledFrom(cx, cy, x + 1, CircleNextY(x, y, d), CircleNextD(x, y, d));
      assert FilledFrom(cx, cy, x, y, d) == RunPair(cx, cy, x, y) + RunPair(cx, cy, y, x) + rest;
      RunPairMembers(cx, cy, x, y);
      RunPairMembers(cx, cy, y, x);
      FilledFromBounded(cx, cy, x + 1, CircleNextY(x, y, d), CircleNextD(x, y, d), r);
    }
  }

  /** Every point of the filled circle lies in the square of side 2r + 1 around the centre. */
  lemma FilledCircleBounded(cx: int, cy: int, r: int)
    ensures forall p :: p in FilledCircle(cx, cy, r) ==> InSquare(p, cx, cy, r)
  {
    if r > 0 {
      FilledFromBounded(cx, cy, 0, r, 3 - 2 * r, r);
    }
  }

  // ---- ellipses ----

  /** The midpoint-ellipse loop variables. */
  datatype EllipseState = EllipseState(x: int, y: int, dx: int, dy: int, decision: int)

  /** The loop's start; Go's `rx*rx/4` truncates, which agrees with `/` as rx * rx is never negative. */
  function EllipseStart(rx: int, ry: int): EllipseState {
    EllipseState(rx, 0, ry * ry * (1 - 2 * rx), rx * rx, ry * ry - rx * rx * ry + rx * rx / 4)
  }

  /** One pass: y always advances; x drops when the decision term is not negative. */
  function EllipseNext(s: EllipseState, rx: int, ry: int): EllipseState {
    if s.decision < 0 then s.(y := s.y + 1, decision := s.decision + s.dy, dy := s.dy + 2 * rx * rx)
    else s.(x := s.x - 1, y := s.y + 1, decision := s.decision + s.dx + s.dy, dx := s.dx + 2 * ry * ry)
  }

  /** The four points one pass of the ellipse loop emits. */
  function Quadrants(cx: int, cy: int, x: int, y: int): seq<Point> {
    [Point(cx + x, cy + y), Point(cx - x, cy + y), Point(cx + x, cy - y), Point(cx - x, cy - y)]
  }

  function EllipseOutlineFrom(cx: int, cy: int, rx: int, ry: int, s: EllipseState): seq<Point>
    decreases s.x - s.y + 1
  {
    if s.x < s.y then []
    else Quadrants(cx, cy, s.x, s.y) + EllipseOutlineFrom(cx, cy, rx, ry, EllipseNext(s, rx, ry))
  }

  function EllipseFilledFrom(cx: int, cy: int, rx: int, ry: int, s: EllipseState): seq<Point>
    decreases s.x - s.y + 1
  {
    if s.x < s.y then []
    else RunPair(cx, cy, s.x, s.y) + EllipseFilledFrom(cx, cy, rx, ry, EllipseNext(s, rx, ry))
  }

  /** What DrawEllipseOutline and DrawFilledEllipse emit; neither checks its radii. */
  function EllipseOutline(cx: int, cy: int, rx: int, ry: int): seq<Point> {
    EllipseOutlineFrom(cx, cy, rx, ry, EllipseStart(rx, ry))
  }

  function FilledEllipse(cx: int, cy: int, rx: int, ry: int): seq<Point> {
    EllipseFilledFrom(cx, cy, rx, ry, EllipseStart(rx, ry))
  }

  /** What DrawEllipse emits: nothing unless both radii are positive. */
  function Ellipse(cx: int, cy: int, rx: int, ry: int, filled: bool): (s: seq<Point>)
    ensures rx <= 0 || ry <= 0 ==> s == []
  {
    if rx <= 0 || ry <= 0 then []
    else if filled then FilledEllipse(cx, cy, rx, ry)
    else EllipseOutline(cx, cy, rx, ry)
  }

  method DrawEllipseOutline(cx: int, cy: int, rx: int, ry: int) returns (pts: seq<Point>)
    ensures pts == EllipseOutline(cx, cy, rx, ry)
  {
    var x := rx;
    var y := 0;
    var dx := ry * ry * (1 - 2 * rx);
    var dy := rx * rx;
    var decision := ry * ry - rx * rx * ry + rx * rx / 4;
    ghost var total := EllipseOutlineFrom(cx, cy, rx, ry, EllipseState(x, y, dx, dy, decision));
    pts := [];
    while x >= y
      invariant pts + EllipseOutlineFrom(cx, cy, rx, ry, EllipseState(x, y, dx, dy, decision)) == total
      decreases x - y + 1
    {
      ghost var s := EllipseState(x, y, dx, dy, decision);
      EllipseOutlineAdvance(cx, cy, rx, ry, s, pts, total);
      pts := pts + [Point(cx + x, cy + y), Point(cx - x, cy + y), Point(cx + x, cy - y), Point(cx - x, cy - y)];
      if decision < 0 {
        decision := decision + dy;
        dy := dy + 2 * rx * rx;
      } else {
        decision := decision + dx + dy;
        dx := dx + 2 * ry * ry;
        x := x - 1;
      }
      y := y + 1;
      assert EllipseState(x, y, dx, dy, decision) == EllipseNext(s, rx, ry);
    }
  }

  lemma EllipseOutlineAdvance(cx: int, cy: int, rx: int, ry: int, s: EllipseState, pts: seq<Point>, total: seq<Point>)
    requires s.x >= s.y && pts + EllipseOutlineFrom(cx, cy, rx, ry, s) == total
    ensures (pts + Quadrants(cx, cy, s.x, s.y)) + EllipseOutlineFrom(cx, cy, rx, ry, EllipseNext(s, rx, ry)) == total
  {
    var rest := EllipseOutlineFrom(cx, cy, rx, ry, EllipseNext(s, rx, ry));
    assert EllipseOutlineFrom(cx, cy, rx, ry, s) == Quadrants(cx, cy, s.x, s.y) + rest;
    AppendAssoc(pts, Quadrants(cx, cy, s.x, s.y), rest);
  }

  method DrawFilledEllipse(cx: int, cy: int, rx: int, ry: int) returns (pts: seq<Point>)
    ensures pts == FilledEllipse(cx, cy, rx, ry)
  {
    var x := rx;
    var y := 0;
    var dx := ry * ry * (1 - 2 * rx);
    var dy := rx * rx;
    var decision := ry * ry - rx * rx * ry + rx * rx / 4;
    ghost var total := EllipseFilledFrom(cx, cy, rx, ry, EllipseState(x, y, dx, dy, decision));
    pts := [];
    while x >= y
      invariant pts + EllipseFilledFrom(cx, cy, rx, ry, EllipseState(x, y, dx, dy, decision)) == total
      decreases x - y + 1
    {
      ghost var s := EllipseState(x, y, dx, dy, decision);
      var runs := DrawRunPair(cx, cy, x, y);
      EllipseFilledAdvance(cx, cy, rx, ry, s, pts, total);
      pts := pts + runs;
      if decision < 0 {
        decision := decision + dy;
        dy := dy + 2 * rx * rx;
      } else {
        decision := decision + dx + dy;
        dx := dx + 2 * ry * ry;
        x := x - 1;
      }
      y := y + 1;
      assert EllipseState(x, y, dx, dy, decision) == EllipseNext(s, rx, ry);
    }
  }

  lemma EllipseFilledAdvance(cx: int, cy: int, rx: int, ry: int, s: EllipseState, pts: seq<Point>, total: seq<Point>)
    requires s.x >= s.y && pts + EllipseFilledFrom(cx, cy, rx, ry, s) == total
    ensures (pts + RunPair(cx, cy, s.x, s.y)) + EllipseFilledFrom(cx, cy, rx, ry, EllipseNext(s, rx, ry)) == total
  {
    var rest := EllipseFilledFrom(cx, cy, rx, ry, EllipseNext(s, rx, ry));
    assert EllipseFilledFrom(cx, cy, rx, ry, s) == RunPair(cx, cy, s.x, s.y) + rest;
    AppendAssoc(pts, RunPair(cx, cy, s.x, s.y), rest);
  }

  /** The two horizontal lines one pass of the filled-ellipse loop draws. */
  method DrawRunPair(cx: int, cy: int, x: int, y: int) returns (runs: seq<Point>)
    ensures runs == RunPair(cx, cy, x, y)
  {
    var a := DrawHorizontalLine(cx - x, cx + x, cy + y);
    var b := DrawHorizontalLine(cx - x, cx + x, cy - y);
    runs := a + b;
  }

  method DrawEllipse(cx: int, cy: int, rx: int, ry: int, filled: bool) returns (pts: seq<Point>)
    ensures pts == Ellipse(cx, cy, rx, ry, filled)
  {
    if rx <= 0 || ry <= 0 {
      return [];
    }
    if filled {
      pts := DrawFilledEllipse(cx, cy, rx, ry);
      return;
    }
    pts := DrawEllipseOutline(cx, cy, rx, ry);
  }

  /** `p` lies in the double wedge |p.y - cy| <= |p.x - cx| around the horizontal axis through the centre. */
  predicate InWedge(p: Point, cx: int, cy: int) {
    (p.y - cy <= p.x - cx && cy - p.y <= p.x - cx) || (p.y - cy <= cx - p.x && cy - p.y <= cx - p.x)
  }

  /** Ellipse points are symmetric in both axes and within rx of the centre each way. */
  predicate EllipseShaped(s: seq<Point>, cx: int, cy: int, rx: int) {
    AxisSymmetric(s, cx, cy) && forall p :: p in s ==> InSquare(p, cx, cy, rx)
  }

  lemma EllipseShapedAppend(a: seq<Point>, b: seq<Point>, cx: int, cy: int, rx: int)
    requires EllipseShaped(a, cx, cy, rx) && EllipseShaped(b, cx, cy, rx)
    ensures EllipseShaped(a + b, cx, cy, rx)
  {
  }

  lemma {:induction false} EllipseOutlineFromShaped(cx: int, cy: int, rx: int, ry: int, s: EllipseState)
    requires 0 <= s.y && s.x <= rx
    ensures EllipseShaped(EllipseOutlineFrom(cx, cy, rx, ry, s), cx, cy, rx)
    ensures forall p :: p in EllipseOutlineFrom(cx, cy, rx, ry, s) ==> InWedge(p, cx, cy)
    ensures forall p :: p in EllipseOutlineFrom(cx, cy, rx, ry, s) ==> p in EllipseFilledFrom(cx, cy, rx, ry, s)
    decreases s.x - s.y + 1
  {
    if s.x >= s.y {
      var quad, rest := Quadrants(cx, cy, s.x, s.y), EllipseOutlineFrom(cx, cy, rx, ry, EllipseNext(s, rx, ry));
      assert EllipseShaped(quad, cx, cy, rx);
      EllipseOutlineFromShaped(cx, cy, rx, ry, EllipseNext(s, rx, ry));
      EllipseShapedAppend(quad, rest, cx, cy, rx);
      RunPairMembers(cx, cy, s.x, s.y);
    }
  }

  lemma {:induction false} EllipseFilledFromShaped(cx: int, cy: int, rx: int, ry: int, s: EllipseState)
    requires 0 <= s.y && s.x <= rx
    ensures EllipseShaped(EllipseFilledFrom(cx, cy, rx, ry, s), cx, cy, rx)
    decreases s.x - s.y + 1
  {
    if s.x >= s.y {
      var runs, rest := RunPair(cx, cy, s.x, s.y), EllipseFilledFrom(cx, cy, rx, ry, EllipseNext(s, rx, ry));
      RunPairMembers(cx, cy, s.x, s.y);
      assert EllipseShaped(runs, cx, cy, rx);
      EllipseFilledFromShaped(cx, cy, rx, ry, EllipseNext(s, rx, ry));
      EllipseShapedAppend(runs, rest, cx, cy, rx);
    }
  }

  /**
   * Both ellipse forms are symmetric in the axes through the centre and
   * lie within rx of it; the outline never rises above 45 degrees from
   * the horizontal axis and lies inside the filled form.
   */
  lemma EllipseShape(cx: int, cy: int, rx: int, ry: int, filled: bool)
    ensures EllipseShaped(Ellipse(cx, cy, rx, ry, filled), cx, cy, rx)
    ensures forall p :: p in Ellipse(cx, cy, rx, ry, false) ==> InWedge(p, cx, cy)
    ensures forall p :: p in Ellipse(cx, cy, rx, ry, false) ==> p in Ellipse(cx, cy, rx, ry, true)
  {
    if rx > 0 && ry > 0 {
      EllipseOutlineFromShaped(cx, cy, rx, ry, EllipseStart(rx, ry));
      EllipseFilledFromShaped(cx, cy, rx, ry, EllipseStart(rx, ry));
    }
  }

  /** A tall ellipse never reaches its top or bottom: the loop stops once y passes x. */
  lemma TallEllipseMissesPoles(cx: int, cy: int, rx: int, ry: int, filled: bool)
    requires 0 < rx < ry
    ensures Point(cx, cy + ry) !in Ellipse(cx, cy, rx, ry, filled)
    ensures Point(cx, cy - ry) !in Ellipse(cx, cy, rx, ry, filled)
  {
    EllipseShape(cx, cy, rx, ry, filled);
  }

  // ---- triangles ----

  /** The outline branch of DrawTriangle: three Bresenham lines, around the vertices in order and back to the first. */
  function TriangleOutline(x1: int, y1: int, x2: int, y2: int, x3: int, y3: int): seq<Point> {
    Line(x1, y1, x2, y2) + Line(x2, y2, x3, y3) + Line(x3, y3, x1, y1)
  }

  method DrawTriangleOutline(x1: int, y1: int, x2: int, y2: int, x3: int, y3: int) returns (pts: seq<Point>)
    ensures pts == TriangleOutline(x1, y1, x2, y2, x3, y3)
  {
    var a := DrawLineBresenham(x1, y1, x2, y2);
    var b := DrawLineBresenham(x2, y2, x3, y3);
    var c := DrawLineBresenham(x3, y3, x1, y1);
    pts := a + b + c;
  }

  /** The outline starts and ends at the first vertex, passes through the other two and stays in their bounding box. */
  lemma TriangleOutlineShape(x1: int, y1: int, x2: int, y2: int, x3: int, y3: int)
    ensures var s := TriangleOutline(x1, y1, x2, y2, x3, y3);
            && |s| >= 3 && s[0] == Point(x1, y1) && s[|s| - 1] == Point(x1, y1)
            && Point(x2, y2) in s && Point(x3, y3) in s
            && forall p :: p in s ==>
                 Min(x1, Min(x2, x3)) <= p.x <= Max(x1, Max(x2, x3)) && Min(y1, Min(y2, y3)) <= p.y <= Max(y1, Max(y2, y3))
  {
    TriangleEnds(x1, y1, x2, y2, x3, y3);
    TriangleBounds(x1, y1, x2, y2, x3, y3);
  }

  lemma TriangleEnds(x1: int, y1: int, x2: int, y2: int, x3: int, y3: int)
    ensures var s := TriangleOutline(x1, y1, x2, y2, x3, y3);
            && |s| >= 3 && s[0] == Point(x1, y1) && s[|s| - 1] == Point(x1, y1)
            && Point(x2, y2) in s && Point(x3, y3) in s
  {
    var a, b, c := Line(x1, y1, x2, y2), Line(x2, y2, x3, y3), Line(x3, y3, x1, y1);
    LineEnds(x1, y1, x2, y2);
    LineEnds(x2, y2, x3, y3);
    LineEnds(x3, y3, x1, y1);
    Concat3Ends(a, b, c);
  }

  lemma Concat3Ends<T>(a: seq<T>, b: seq<T>, c: seq<T>)
    requires |a| >= 1 && |b| >= 1 && |c| >= 1
    ensures var s := a + b + c;
            |s| >= 3 && s[0] == a[0] && s[|s| - 1] == c[|c| - 1] && a[|a| - 1] in s && b[|b| - 1] in s
  {
    var s := a + b + c;
    assert s[|a| - 1] == a[|a| - 1];
    assert s[|a| + |b| - 1] == b[|b| - 1];
  }

  lemma TriangleBounds(x1: int, y1: int, x2: int, y2: int, x3: int, y3: int)
    ensures forall p :: p in TriangleOutline(x1, y1, x2, y2, x3, y3) ==>
              Min(x1, Min(x2, x3)) <= p.x <= Max(x1, Max(x2, x3)) && Min(y1, Min(y2, y3)) <= p.y <= Max(y1, Max(y2, y3))
  {
    var a, b, c := Line(x1, y1, x2, y2), Line(x2, y2, x3, y3), Line(x3, y3, x1, y1);
    LineEnds(x1, y1, x2, y2);
    LineEnds(x2, y2, x3, y3);
    LineEnds(x3, y3, x1, y1);
    forall p: Point | p in a + b + c
      ensures Min(x1, Min(x2, x3)) <= p.x <= Max(x1, Max(x2, x3)) && Min(y1, Min(y2, y3)) <= p.y <= Max(y1, Max(y2, y3))
    {
      if p in a {
        assert Between(x1, p.x, x2) && Between(y1, p.y, y2);
      } else if p in b {
        assert Between(x2, p.x, x3) && Between(y2, p.y, y3);
      } else {
        assert Between(x3, p.x, x1) && Between(y3, p.y, y1);
      }
    }
  }

  lemma AppendAssoc<T>(a: seq<T>, b: seq<T>, c: seq<T>)
    ensures (a + b) + c == a + (b + c)
  {
  }
}
